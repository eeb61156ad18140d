/**
 The counters that the indexer keeps besides the token index, and its record of each vote, after
 every run: in terms of the run's events.
 */
module Counters {
  import opened DelegatedVotes
  import opened Entities
  import opened Events
  import opened Frames
  import opened Governor
  import opened TokenIndex
  import opened VoteRuns
  import opened Wrappers

  // ---------- what the handlers leave of the counters ----------

  predicate SameCounts(g: Governance, h: Governance) {
    h.proposals == g.proposals && h.proposalsQueued == g.proposalsQueued
  }

  function HoldersRepresented(s: Store, d: Address): int {
    DelegateOf(s, d).tokenHoldersRepresentedAmount
  }

  predicate CountersSame(s: Store, after: Store, d: Address) {
    HoldersRepresented(after, d) == HoldersRepresented(s, d) && SameCounts(GovernanceOf(s), GovernanceOf(after))
  }

  lemma EnsureCounters(s: Store, id: Address, d: Address)
    ensures CountersSame(s, EnsureDelegate(s, id), d)
  {
  }

  lemma StopCounters(s: Store, delegate: Address, gone: seq<NounId>, d: Address)
    ensures CountersSame(s, StopRepresenting(s, delegate, gone), d)
  {
    EnsureCounters(s, delegate, d);
  }

  lemma StartCounters(s: Store, delegate: Address, id: NounId, d: Address)
    ensures CountersSame(s, StartRepresenting(s, delegate, id), d)
  {
    EnsureCounters(s, delegate, d);
  }

  lemma SenderCounters(s: Store, from: Address, id: NounId, d: Address)
    ensures var (after, g) := SenderSide(s, from, id); CountersSame(s, after, d) && SameCounts(GovernanceOf(s), g)
  {
    if AccountOf(s, from).delegate.Some? {
      StopCounters(s, AccountOf(s, from).delegate.value, [id], d);
    }
  }

  lemma CreditCounters(s: Store, g: Governance, t: Account, to: Address, id: NounId, d: Address)
    requires SameCounts(GovernanceOf(s), g)
    ensures CountersSame(s, CreditSide(s, g, t, to, id), d)
  {
  }

  lemma ReceiverCounters(s: Store, g: Governance, t: Account, to: Address, id: NounId, d: Address)
    requires SameCounts(GovernanceOf(s), g)
    ensures CountersSame(s, ReceiverSide(s, g, t, to, id), d)
  {
    var (s1, g1) := BurnSide(s, g, to);
    StartCounters(s1, t.delegate.GetOr(to), id, d);
    CreditCounters(StartRepresenting(s1, t.delegate.GetOr(to), id), g1, t, to, id, d);
  }

  lemma TransferCounters(s: Store, from: Address, to: Address, id: NounId, d: Address)
    ensures CountersSame(s, AfterTransfer(s, from, to, id), d)
  {
    var s0 := EnsureAccount(EnsureAccount(s, from), to);
    var (s1, g) := SenderSide(s0, from, id);
    EnsureAccountsAdds(s, from, to, to);
    SenderCounters(s0, from, id, d);
    ReceiverCounters(s1, g, s0.accounts[to], to, id, d);
  }

  lemma RedelegateCounters(s: Store, delegator: Address, fromDelegate: Address, toDelegate: Address, d: Address)
    requires delegator in s.accounts && fromDelegate in s.delegates && toDelegate in s.delegates
    ensures var after := Redelegate(s, delegator, fromDelegate, toDelegate);
            && after.governance == s.governance
            && HoldersRepresented(after, d) ==
               HoldersRepresented(s, d) + (if d == toDelegate then 1 else if d == fromDelegate then -1 else 0)
  {
  }

  lemma EnsureTwoCounters(s: Store, a: Address, b: Address, d: Address)
    ensures CountersSame(s, EnsureDelegate(EnsureDelegate(s, a), b), d)
  {
    EnsureCounters(s, a, d);
    EnsureCounters(EnsureDelegate(s, a), b, d);
  }

  lemma DelegationCounters(s: Store, delegator: Address, fromDelegate: Address, toDelegate: Address, d: Address)
    ensures var after := AfterDelegateChanged(s, delegator, fromDelegate, toDelegate);
            && SameCounts(GovernanceOf(s), GovernanceOf(after))
            && HoldersRepresented(after, d) ==
               HoldersRepresented(s, d) + (if d == toDelegate then 1 else if d == fromDelegate then -1 else 0)
  {
    var s0 := EnsureAccount(s, delegator);
    EnsureAccountAdds(s, delegator, delegator);
    EnsureTwoCounters(s0, fromDelegate, toDelegate, d);
    EnsureDelegatesAdds(s0, fromDelegate, toDelegate, delegator);
    RedelegateCounters(EnsureDelegate(EnsureDelegate(s0, fromDelegate), toDelegate), delegator, fromDelegate, toDelegate, d);
  }

  // ---------- the counters over runs ----------

  /** What one event adds to the counters: how many holders a delegate represents, how many proposals are queued, and which there are. */
  function Represents(a: Action, d: Address): int {
    if a.DelegateChanged? then if d == a.toDelegate then 1 else if d == a.fromDelegate then -1 else 0 else 0
  }

  function Queues(a: Action): int {
    if a.ProposalQueued? then 1 else if a.ProposalExecuted? then -1 else 0
  }

  function Created(a: Action): set<ProposalId> {
    if a.ProposalCreated? then {a.id} else {}
  }

  predicate Counts(s: Store, a: Action, after: Store, d: Address) {
    && HoldersRepresented(after, d) == HoldersRepresented(s, d) + Represents(a, d)
    && GovernanceOf(after).proposalsQueued == GovernanceOf(s).proposalsQueued + Queues(a)
    && after.proposals.Keys == s.proposals.Keys + Created(a)
    && GovernanceOf(after).proposals == GovernanceOf(s).proposals + |Created(a) - s.proposals.Keys|
  }

  /** An event that changes none of the counters. */
  lemma CountsNothing(s: Store, a: Action, after: Store, d: Address)
    requires CountersSame(s, after, d) && after.proposals.Keys == s.proposals.Keys
    requires a.Transfer? || a.DelegateVotesChanged? || a.VoteCast? || a.ProposalCanceled? || a.ProposalVetoed? || a.ParamSet?
    ensures Counts(s, a, after, d)
  {
    assert Created(a) - s.proposals.Keys == {};
  }

  lemma TransferCounts(s: Store, from: Address, to: Address, noun: NounId, d: Address)
    ensures Counts(s, Transfer(from, to, noun), AfterTransfer(s, from, to, noun), d)
  {
    TransferCounters(s, from, to, noun, d);
    TransferLeaves(s, from, to, noun);
    CountsNothing(s, Transfer(from, to, noun), AfterTransfer(s, from, to, noun), d);
  }

  lemma DelegationCounts(s: Store, delegator: Address, fromDelegate: Address, toDelegate: Address, d: Address)
    ensures Counts(s, DelegateChanged(delegator, fromDelegate, toDelegate), AfterDelegateChanged(s, delegator, fromDelegate, toDelegate), d)
  {
    DelegationCounters(s, delegator, fromDelegate, toDelegate, d);
    DelegationLeaves(s, delegator, fromDelegate, toDelegate);
    assert Created(DelegateChanged(delegator, fromDelegate, toDelegate)) - s.proposals.Keys == {};
  }

  lemma VotesChangedCounts(s: Store, delegate: Address, previous: nat, next: nat, d: Address)
    ensures Counts(s, DelegateVotesChanged(delegate, previous, next), AfterVotesChanged(s, delegate, previous, next), d)
  {
    EnsureCounters(s, delegate, d);
    VotesChangedLeaves(s, delegate, previous, next);
    CountsNothing(s, DelegateVotesChanged(delegate, previous, next), AfterVotesChanged(s, delegate, previous, next), d);
  }

  lemma CreatedParts(s: Store, block: nat, id: ProposalId, proposer: Address, startBlock: nat, endBlock: nat, quorumVotes: nat)
    ensures var s1 := EnsureDelegate(CountProposal(s, id), proposer);
            var after := AfterProposalCreated(s, block, id, proposer, startBlock, endBlock, quorumVotes);
            after.delegates == s1.delegates && after.governance == s1.governance && after.proposals.Keys == s.proposals.Keys + {id}
  {
    EnsureDelegateLeaves(CountProposal(s, id), proposer);
  }

  lemma CountProposalCounts(s: Store, id: ProposalId)
    ensures CountProposal(s, id).delegates == s.delegates
    ensures GovernanceOf(CountProposal(s, id)) ==
            GovernanceOf(s).(proposals := GovernanceOf(s).proposals + |{id} - s.proposals.Keys|)
  {
    assert {id} - s.proposals.Keys == if id in s.proposals then {} else {id};
  }

  lemma CountsCreated(s: Store, s1: Store, s2: Store, after: Store, a: Action, d: Address)
    requires a.ProposalCreated? && s1.delegates == s.delegates && CountersSame(s1, s2, d)
    requires GovernanceOf(s1) == GovernanceOf(s).(proposals := GovernanceOf(s).proposals + |{a.id} - s.proposals.Keys|)
    requires after.delegates == s2.delegates && after.governance == s2.governance && after.proposals.Keys == s.proposals.Keys + {a.id}
    ensures Counts(s, a, after, d)
  {
  }

  lemma CreatedCounts(s: Store, block: nat, id: ProposalId, proposer: Address, startBlock: nat, endBlock: nat, quorumVotes: nat, d: Address)
    ensures Counts(s, ProposalCreated(id, proposer, startBlock, endBlock, quorumVotes),
                   AfterProposalCreated(s, block, id, proposer, startBlock, endBlock, quorumVotes), d)
  {
    var s1 := CountProposal(s, id);
    CountProposalCounts(s, id);
    EnsureCounters(s1, proposer, d);
    CreatedParts(s, block, id, proposer, startBlock, endBlock, quorumVotes);
    CountsCreated(s, s1, EnsureDelegate(s1, proposer), AfterProposalCreated(s, block, id, proposer, startBlock, endBlock, quorumVotes),
                  ProposalCreated(id, proposer, startBlock, endBlock, quorumVotes), d);
  }

  lemma CastCounts(s: Store, e: Event, d: Address)
    requires e.action.VoteCast? && Step(s, e).Some?
    ensures Counts(s, e.action, Step(s, e).value, d)
  {
    EnsureCounters(s, e.action.voter, d);
    VoteParts(s, e);
    EnsureDelegateParts(s, e.action.voter);
    CountsNothing(s, e.action, Step(s, e).value, d);
  }

  /** The events that touch a stored proposal. */
  lemma StatusCounts(s: Store, e: Event, d: Address)
    requires e.action.ProposalCanceled? || e.action.ProposalVetoed? || e.action.ProposalQueued? || e.action.ProposalExecuted?
    requires Step(s, e).Some?
    ensures Counts(s, e.action, Step(s, e).value, d)
  {
    assert Created(e.action) - s.proposals.Keys == {};
    assert Step(s, e).value.proposals.Keys == s.proposals.Keys;
  }

  lemma ParamCounts(s: Store, block: nat, param: Param, d: Address)
    ensures Counts(s, ParamSet(param), AfterParamSet(s, block, param), d)
  {
    CountsNothing(s, ParamSet(param), AfterParamSet(s, block, param), d);
  }

  lemma StepCounts(s: Store, e: Event, after: Store, d: Address)
    requires Step(s, e) == Some(after)
    ensures Counts(s, e.action, after, d)
  {
    match e.action {
      case Transfer(from, to, noun) => TransferCounts(s, from, to, noun, d);
      case DelegateChanged(delegator, fromDelegate, toDelegate) => DelegationCounts(s, delegator, fromDelegate, toDelegate, d);
      case DelegateVotesChanged(delegate, previous, next) => VotesChangedCounts(s, delegate, previous, next, d);
      case ProposalCreated(id, proposer, start, end, quorum) => CreatedCounts(s, e.block, id, proposer, start, end, quorum, d);
      case VoteCast(_, _, _, _) => CastCounts(s, e, d);
      case ParamSet(param) => ParamCounts(s, e.block, param, d);
      case _ => StatusCounts(s, e, d);
    }
  }

  /** The delegate changes to a delegate, less those away from it. */
  function RepresentedIn(es: seq<Event>, d: Address): int {
    if es == [] then 0 else RepresentedIn(es[..|es| - 1], d) + Represents(es[|es| - 1].action, d)
  }

  /** The events that queue a proposal, less those that execute one. */
  function QueuedIn(es: seq<Event>): int {
    if es == [] then 0 else QueuedIn(es[..|es| - 1]) + Queues(es[|es| - 1].action)
  }

  function CreatedIn(es: seq<Event>): set<ProposalId> {
    set e | e in es && e.action.ProposalCreated? :: e.action.id
  }

  lemma CreatedLast(es: seq<Event>)
    requires es != []
    ensures CreatedIn(es) == CreatedIn(es[..|es| - 1]) + Created(es[|es| - 1].action)
  {
    assert es == es[..|es| - 1] + [es[|es| - 1]];
  }

  lemma UnionSize(a: set<ProposalId>, b: set<ProposalId>)
    ensures |a + b| == |a| + |b - a|
  {
    assert a + b == a + (b - a);
  }

  /**
   After every run `proposals` counts the ids that were created, `proposalsQueued` the queue events
   less the executions, and a delegate's holders the delegate changes to it less those away from it.
   */
  lemma {:induction false} CountersAfterEveryRun(es: seq<Event>, d: Address)
    requires Run(EMPTY_STORE, es).Some?
    ensures var s := Run(EMPTY_STORE, es).value;
            && s.proposals.Keys == CreatedIn(es) && GovernanceOf(s).proposals == |CreatedIn(es)|
            && GovernanceOf(s).proposalsQueued == QueuedIn(es)
            && HoldersRepresented(s, d) == RepresentedIn(es, d)
  {
    if es != [] {
      var prefix, e := es[..|es| - 1], es[|es| - 1];
      CountersAfterEveryRun(prefix, d);
      StepCounts(Run(EMPTY_STORE, prefix).value, e, Run(EMPTY_STORE, es).value, d);
      CreatedLast(es);
      UnionSize(CreatedIn(prefix), Created(e.action));
    }
  }

  // ---------- the count of delegates ----------

  /** The addresses that are new, but for the zero address. */
  function Fresh(before: set<Address>, after: set<Address>): set<Address> {
    after - before - {ZERO_ADDRESS}
  }

  lemma FreshOne(before: set<Address>, id: Address)
    ensures |Fresh(before, before + {id})| == if id in before || id == ZERO_ADDRESS then 0 else 1
  {
    assert Fresh(before, before + {id}) == if id in before || id == ZERO_ADDRESS then {} else {id};
  }

  lemma FreshTwice(before: set<Address>, mid: set<Address>, after: set<Address>)
    requires before <= mid <= after
    ensures |Fresh(before, after)| == |Fresh(before, mid)| + |Fresh(mid, after)|
  {
    UnionOfTwo(Fresh(before, mid), Fresh(mid, after));
    assert Fresh(before, after) == Fresh(before, mid) + Fresh(mid, after);
  }

  lemma UnionOfTwo(a: set<Address>, b: set<Address>)
    requires a !! b
    ensures |a + b| == |a| + |b|
  {
  }

  function TotalDelegates(s: Store): int {
    GovernanceOf(s).totalDelegates
  }

  lemma EnsureOne(s: Store, id: Address)
    ensures TotalDelegates(EnsureDelegate(s, id)) == TotalDelegates(s) + (if id in s.delegates.Keys || id == ZERO_ADDRESS then 0 else 1)
    ensures EnsureDelegate(s, id).delegates.Keys == s.delegates.Keys + {id}
  {
  }

  /** The delegates that an event brought are counted. */
  predicate CountsNew(s: Store, after: Store) {
    TotalDelegates(after) == TotalDelegates(s) + |Fresh(s.delegates.Keys, after.delegates.Keys)|
  }

  lemma EnsureTotal(s: Store, id: Address)
    ensures CountsNew(s, EnsureDelegate(s, id)) && EnsureDelegate(s, id).delegates.Keys == s.delegates.Keys + {id}
  {
    EnsureOne(s, id);
    FreshOne(s.delegates.Keys, id);
  }

  lemma NewTrans(s: Store, mid: Store, after: Store)
    requires CountsNew(s, mid) && CountsNew(mid, after) && s.delegates.Keys <= mid.delegates.Keys <= after.delegates.Keys
    ensures CountsNew(s, after)
  {
    FreshTwice(s.delegates.Keys, mid.delegates.Keys, after.delegates.Keys);
  }

  lemma EnsureTwoTotal(s: Store, a: Address, b: Address)
    ensures CountsNew(s, EnsureDelegate(EnsureDelegate(s, a), b))
  {
    EnsureTotal(s, a);
    EnsureTotal(EnsureDelegate(s, a), b);
    NewTrans(s, EnsureDelegate(s, a), EnsureDelegate(EnsureDelegate(s, a), b));
  }

  lemma RedelegateTotal(s: Store, delegator: Address, fromDelegate: Address, toDelegate: Address)
    requires delegator in s.accounts && fromDelegate in s.delegates && toDelegate in s.delegates
    ensures var after := Redelegate(s, delegator, fromDelegate, toDelegate);
            after.delegates.Keys == s.delegates.Keys && after.governance == s.governance
  {
  }

  lemma DelegationTotal(s: Store, delegator: Address, fromDelegate: Address, toDelegate: Address)
    ensures CountsNew(s, AfterDelegateChanged(s, delegator, fromDelegate, toDelegate))
  {
    var s0 := EnsureAccount(s, delegator);
    EnsureAccountAdds(s, delegator, delegator);
    EnsureTwoTotal(s0, fromDelegate, toDelegate);
    EnsureDelegatesAdds(s0, fromDelegate, toDelegate, delegator);
    RedelegateTotal(EnsureDelegate(EnsureDelegate(s0, fromDelegate), toDelegate), delegator, fromDelegate, toDelegate);
  }

  lemma CreatedTotal(s: Store, block: nat, id: ProposalId, proposer: Address, startBlock: nat, endBlock: nat, quorumVotes: nat)
    ensures CountsNew(s, AfterProposalCreated(s, block, id, proposer, startBlock, endBlock, quorumVotes))
  {
    CountProposalCounts(s, id);
    EnsureTotal(CountProposal(s, id), proposer);
    CreatedParts(s, block, id, proposer, startBlock, endBlock, quorumVotes);
  }

  lemma CastTotal(s: Store, e: Event)
    requires e.action.VoteCast? && Step(s, e).Some?
    ensures CountsNew(s, Step(s, e).value)
  {
    VoteParts(s, e);
    EnsureDelegateParts(s, e.action.voter);
    EnsureTotal(s, e.action.voter);
  }

  /** Every account's delegate has a record, and an account without a delegate has no nouns. */
  predicate DelegateKnown(s: Store, a: Address) {
    if AccountOf(s, a).delegate.Some? then AccountOf(s, a).delegate.value in s.delegates else AccountOf(s, a).tokenBalanceRaw == 0
  }

  lemma SenderTotal(s: Store, from: Address, id: NounId)
    requires DelegateKnown(s, from)
    ensures var (after, g) := SenderSide(s, from, id);
            && TotalDelegates(after) == TotalDelegates(s) == g.totalDelegates && s.delegates.Keys == after.delegates.Keys
  {
  }

  /** The governance copy that a first noun saves was loaded before the receiver's delegate was created. */
  lemma ReceiverTotal(s: Store, g: Governance, t: Account, to: Address, id: NounId)
    requires TotalDelegates(s) == g.totalDelegates
    requires if t.delegate.Some? then t.delegate.value in s.delegates else t.tokenBalanceRaw == 0
    ensures TotalDelegates(ReceiverSide(s, g, t, to, id)) == TotalDelegates(s)
  {
  }

  lemma TransferTotal(s: Store, from: Address, to: Address, id: NounId)
    requires DelegateKnown(s, from) && DelegateKnown(s, to)
    ensures TotalDelegates(AfterTransfer(s, from, to, id)) == TotalDelegates(s)
  {
    var s0 := EnsureAccount(EnsureAccount(s, from), to);
    var (s1, g) := SenderSide(s0, from, id);
    EnsureAccountsAdds(s, from, to, from);
    EnsureAccountsAdds(s, from, to, to);
    SenderTotal(s0, from, id);
    ReceiverTotal(s1, g, s0.accounts[to], to, id);
  }

  lemma RightDelegateKnown(s: Store, t: Truth, a: Address)
    requires Right(s, t)
    ensures DelegateKnown(s, a)
  {
    Look(s, t, a);
    if a in t.delegate {
      var n := NounsOf(s, a)[0];
      assert n in NounsOf(s, a) && t.Owns(a, n) && t.Represents(t.delegate[a], n);
      assert RepresentsExactly(RepresentedBy(s, t.delegate[a]), t, t.delegate[a]);
    }
  }

  /** The events whose new delegates are counted: those that name a delegate, a proposer or a voter. */
  predicate CountsDelegates(a: Action) {
    a.DelegateChanged? || a.ProposalCreated? || a.VoteCast?
  }

  lemma RightTransferTotal(s: Store, t: Truth, from: Address, to: Address, id: NounId)
    requires Right(s, t)
    ensures TotalDelegates(AfterTransfer(s, from, to, id)) == TotalDelegates(s)
  {
    RightDelegateKnown(s, t, from);
    RightDelegateKnown(s, t, to);
    TransferTotal(s, from, to, id);
  }

  /** The other events save the governance entity as it was loaded, or not at all. */
  lemma UncountedTotal(s: Store, e: Event)
    requires Step(s, e).Some? && !e.action.Transfer? && !CountsDelegates(e.action)
    ensures TotalDelegates(Step(s, e).value) == TotalDelegates(s)
  {
  }

  lemma CountedTotal(s: Store, e: Event, after: Store)
    requires Step(s, e) == Some(after) && CountsDelegates(e.action)
    ensures CountsNew(s, after)
  {
    if e.action.DelegateChanged? {
      DelegationTotal(s, e.action.delegator, e.action.fromDelegate, e.action.toDelegate);
    } else if e.action.ProposalCreated? {
      CreatedTotal(s, e.block, e.action.id, e.action.proposer, e.action.startBlock, e.action.endBlock, e.action.quorumVotes);
    } else {
      CastTotal(s, e);
    }
  }

  lemma StepTotal(s: Store, t: Truth, e: Event, after: Store)
    requires Right(s, t) && Step(s, e) == Some(after)
    ensures if CountsDelegates(e.action) then CountsNew(s, after) else TotalDelegates(after) == TotalDelegates(s)
  {
    if e.action.Transfer? {
      RightTransferTotal(s, t, e.action.from, e.action.to, e.action.noun);
    } else if CountsDelegates(e.action) {
      CountedTotal(s, e, after);
    } else {
      UncountedTotal(s, e);
    }
  }

  /** The delegates that a run brought in counted events. */
  function CountedIn(es: seq<Event>): nat
    requires Run(EMPTY_STORE, es).Some?
  {
    if es == [] then 0
    else
      var prefix := es[..|es| - 1];
      CountedIn(prefix) +
      if CountsDelegates(es[|es| - 1].action) then |Fresh(Run(EMPTY_STORE, prefix).value.delegates.Keys, Run(EMPTY_STORE, es).value.delegates.Keys)|
      else 0
  }

  /**
   After every well-formed run `totalDelegates` counts the delegates that a delegate change, a proposal
   or a vote was the first to name; those that a transfer or a change of votes brought are not counted.
   */
  lemma {:induction false} TotalDelegatesAfterEveryRun(es: seq<Event>)
    requires WellFormedRun(EMPTY_STORE, NO_NOUNS, es)
    ensures Run(EMPTY_STORE, es).Some? && TotalDelegates(Run(EMPTY_STORE, es).value) == CountedIn(es)
  {
    if es != [] {
      var prefix, e := es[..|es| - 1], es[|es| - 1];
      TotalDelegatesAfterEveryRun(prefix);
      EveryRunIsSound(prefix);
      StepTotal(Run(EMPTY_STORE, prefix).value, TruthRun(NO_NOUNS, prefix), e, Run(EMPTY_STORE, es).value);
    }
  }

  // ---------- nouns ever held ----------

  /** The transfers to an account. */
  function ReceivedIn(es: seq<Event>, a: Address): nat {
    if es == [] then 0
    else
      var last := es[|es| - 1].action;
      ReceivedIn(es[..|es| - 1], a) + (if last.Transfer? && last.to == a then 1 else 0)
  }

  function EverHeld(s: Store, a: Address): (int, int) {
    (AccountOf(s, a).totalTokensHeldRaw, AccountOf(s, a).totalTokensHeld)
  }

  lemma OtherStepKeepsAccounts(s: Store, e: Event)
    requires Step(s, e).Some? && !e.action.Transfer? && !e.action.DelegateChanged?
    ensures Step(s, e).value.accounts == s.accounts
  {
    match e.action {
      case DelegateVotesChanged(delegate, previous, next) => VotesChangedLeaves(s, delegate, previous, next);
      case ProposalCreated(id, proposer, start, end, quorum) => CreatedLeaves(s, e.block, id, proposer, start, end, quorum);
      case VoteCast(id, voter, support, votes) => VoteCastLeaves(s, e.block, id, voter, support, votes);
      case _ =>
    }
  }

  /** After every run an account has held as many nouns as were transferred to it. */
  lemma {:induction false} EverHeldAfterEveryRun(es: seq<Event>, a: Address)
    requires Run(EMPTY_STORE, es).Some?
    ensures EverHeld(Run(EMPTY_STORE, es).value, a) == (ReceivedIn(es, a), ReceivedIn(es, a))
  {
    if es != [] {
      var prefix, e := es[..|es| - 1], es[|es| - 1];
      var s := Run(EMPTY_STORE, prefix).value;
      EverHeldAfterEveryRun(prefix, a);
      match e.action {
        case Transfer(from, to, noun) => TransferAccounts(s, from, to, noun, a);
        case DelegateChanged(delegator, fromDelegate, toDelegate) => DelegationAccounts(s, delegator, fromDelegate, toDelegate, a);
        case _ => OtherStepKeepsAccounts(s, e);
      }
    }
  }

  // ---------- the record of a vote ----------

  /** The event casts the vote that is stored under this id. */
  predicate Casts(e: Event, v: VoteId) {
    IsVote(e) && VoteIdOf(e) == v
  }

  lemma TokenStepKeepsVotes(s: Store, e: Event)
    requires e.action.Transfer? || e.action.DelegateChanged? || e.action.DelegateVotesChanged?
    ensures Step(s, e).value.votes == s.votes
  {
    match e.action {
      case Transfer(from, to, noun) => TransferLeaves(s, from, to, noun);
      case DelegateChanged(delegator, fromDelegate, toDelegate) => DelegationLeaves(s, delegator, fromDelegate, toDelegate);
      case DelegateVotesChanged(delegate, previous, next) => VotesChangedLeaves(s, delegate, previous, next);
    }
  }

  lemma CreatedKeepsVotes(s: Store, block: nat, id: ProposalId, proposer: Address, startBlock: nat, endBlock: nat, quorumVotes: nat)
    ensures AfterProposalCreated(s, block, id, proposer, startBlock, endBlock, quorumVotes).votes == s.votes
  {
    EnsureDelegateLeaves(CountProposal(s, id), proposer);
  }

  lemma OtherStepKeepsVotes(s: Store, e: Event)
    requires Step(s, e).Some? && !IsVote(e)
    ensures Step(s, e).value.votes == s.votes
  {
    match e.action {
      case Transfer(_, _, _) => TokenStepKeepsVotes(s, e);
      case DelegateChanged(_, _, _) => TokenStepKeepsVotes(s, e);
      case DelegateVotesChanged(_, _, _) => TokenStepKeepsVotes(s, e);
      case ProposalCreated(id, proposer, start, end, quorum) => CreatedKeepsVotes(s, e.block, id, proposer, start, end, quorum);
      case _ =>
    }
  }

  lemma {:induction false} VoteStays(s: Store, es: seq<Event>, v: VoteId)
    requires Run(s, es).Some? && forall e <- es :: !Casts(e, v)
    ensures v in Run(s, es).value.votes <==> v in s.votes
    ensures v in s.votes ==> Run(s, es).value.votes[v] == s.votes[v]
  {
    if es != [] {
      var prefix, e := es[..|es| - 1], es[|es| - 1];
      VoteStays(s, prefix, v);
      assert e in es;
      if IsVote(e) {
        VoteParts(Run(s, prefix).value, e);
      } else {
        OtherStepKeepsVotes(Run(s, prefix).value, e);
      }
    }
  }

  /**
   A stored vote is the last that its voter cast on the proposal: with its support, its votes and its
   block, and the nouns that the voter represented when it was cast.
   */
  lemma VoteFromEvents(before: seq<Event>, cast: Event, es: seq<Event>)
    requires IsVote(cast) && Run(EMPTY_STORE, before + [cast] + es).Some?
    requires forall e <- es :: !Casts(e, VoteIdOf(cast))
    ensures Run(EMPTY_STORE, before).Some? && VoteIdOf(cast) in Run(EMPTY_STORE, before + [cast] + es).value.votes
    ensures Run(EMPTY_STORE, before + [cast] + es).value.votes[VoteIdOf(cast)] ==
            Vote(cast.action.votes, cast.action.votes, cast.action.support,
                 RepresentedBy(Run(EMPTY_STORE, before).value, cast.action.voter), cast.block)
  {
    RunAppend(EMPTY_STORE, before + [cast], es);
    RunLast(EMPTY_STORE, before, cast);
    var s := Run(EMPTY_STORE, before).value;
    VoteParts(s, cast);
    VoteStays(Step(s, cast).value, es, VoteIdOf(cast));
  }
}
