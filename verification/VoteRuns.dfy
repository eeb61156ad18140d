/** Votes and the dynamic quorum over whole runs, and in every order. */
module VoteRuns {
  import opened Entities
  import opened Events
  import opened Frames
  import opened Governor
  import opened Numbers
  import Quorum
  import opened Wrappers

  // ---------- the quorum of one proposal over a run ----------

  /** The clock of a run: block numbers do not decrease, and do not fall behind `from`. */
  predicate Clocked(es: seq<Event>, from: nat) {
    (forall i :: 0 <= i < |es| ==> from <= es[i].block) &&
    forall i, j :: 0 <= i < j < |es| ==> es[i].block <= es[j].block
  }

  /** The proposal is not created again. */
  predicate NotRecreated(es: seq<Event>, id: ProposalId) {
    forall e <- es :: e.action.ProposalCreated? ==> e.action.id != id
  }

  /** The votes against the proposal that a run casts. */
  function Against(es: seq<Event>, id: ProposalId): nat {
    if es == [] then 0
    else
      var a := es[|es| - 1].action;
      Against(es[..|es| - 1], id) + (if a.VoteCast? && a.id == id && a.support == 0 then a.votes else 0)
  }

  predicate VotedOn(es: seq<Event>, id: ProposalId) {
    exists e <- es :: e.action.VoteCast? && e.action.id == id
  }

  /** What one event may do to a proposal that it does not create. */
  predicate MovesProposal(s: Store, e: Event, id: ProposalId, after: Store) {
    id in s.proposals && id in after.proposals &&
    var p, q, a := s.proposals[id], after.proposals[id], e.action;
    var voted := a.VoteCast? && a.id == id;
    var dynamic := UsesDynamicQuorum(s.params, p.createdBlock);
    && SameSnapshot(p, q)
    && q.againstVotes == p.againstVotes + (if voted && a.support == 0 then a.votes else 0)
    && Some(q.quorumVotes) == (if voted && dynamic then ProposalQuorum(q) else Some(p.quorumVotes))
    && (e.block >= p.createdBlock ==> UsesDynamicQuorum(after.params, p.createdBlock) == dynamic)
  }

  lemma TokenStepMoves(s: Store, e: Event, id: ProposalId)
    requires id in s.proposals && (e.action.Transfer? || e.action.DelegateChanged? || e.action.DelegateVotesChanged?)
    ensures MovesProposal(s, e, id, Step(s, e).value)
  {
    match e.action {
      case Transfer(from, to, noun) => TransferLeaves(s, from, to, noun);
      case DelegateChanged(delegator, fromDelegate, toDelegate) => DelegationLeaves(s, delegator, fromDelegate, toDelegate);
      case DelegateVotesChanged(delegate, previous, next) => VotesChangedLeaves(s, delegate, previous, next);
    }
    assert GovernorSame(s, Step(s, e).value);
  }

  lemma CreatedMoves(s: Store, e: Event, id: ProposalId)
    requires id in s.proposals && e.action.ProposalCreated? && e.action.id != id
    ensures MovesProposal(s, e, id, Step(s, e).value)
  {
    var s1 := CountProposal(s, e.action.id);
    EnsureDelegateLeaves(s1, e.action.proposer);
  }

  lemma VoteMoves(s: Store, e: Event, id: ProposalId)
    requires id in s.proposals && e.action.VoteCast? && Step(s, e).Some?
    ensures MovesProposal(s, e, id, Step(s, e).value)
  {
    EnsureDelegateLeaves(s, e.action.voter);
    var s1 := EnsureParams(EnsureDelegate(s, e.action.voter), None);
    assert s1.proposals == s.proposals;
    assert forall block :: UsesDynamicQuorum(s1.params, block) == UsesDynamicQuorum(s.params, block);
  }

  lemma StepOnProposal(s: Store, e: Event, id: ProposalId)
    requires id in s.proposals && Step(s, e).Some? && (e.action.ProposalCreated? ==> e.action.id != id)
    ensures MovesProposal(s, e, id, Step(s, e).value)
  {
    match e.action {
      case Transfer(_, _, _) => TokenStepMoves(s, e, id);
      case DelegateChanged(_, _, _) => TokenStepMoves(s, e, id);
      case DelegateVotesChanged(_, _, _) => TokenStepMoves(s, e, id);
      case ProposalCreated(_, _, _, _, _) => CreatedMoves(s, e, id);
      case VoteCast(_, _, _, _) => VoteMoves(s, e, id);
      case _ =>
    }
  }

  /** What all the events of a run leave of a proposal that they do not create. */
  lemma {:induction false} ProposalOverRun(s: Store, es: seq<Event>, id: ProposalId)
    requires id in s.proposals && Run(s, es).Some?
    requires Clocked(es, s.proposals[id].createdBlock) && NotRecreated(es, id)
    ensures var after := Run(s, es).value;
            id in after.proposals &&
            var p, q := s.proposals[id], after.proposals[id];
            var dynamic := UsesDynamicQuorum(s.params, p.createdBlock);
            && SameSnapshot(p, q)
            && UsesDynamicQuorum(after.params, q.createdBlock) == dynamic
            && q.againstVotes == p.againstVotes + Against(es, id)
            && Some(q.quorumVotes) == (if dynamic && VotedOn(es, id) then ProposalQuorum(q) else Some(p.quorumVotes))
  {
    if es != [] {
      var prefix, e := es[..|es| - 1], es[|es| - 1];
      ProposalOverRun(s, prefix, id);
      StepOnProposal(Run(s, prefix).value, e, id);
      VotedOnLast(es, id);
    }
  }

  /** The floor of the supply's share that the votes against call for, at most the maximum. */
  predicate IsFloorQuorum(quorum: int, against: nat, supply: int, min: nat, max: nat, coefficient: nat) {
    supply > 0 && quorum == supply * Min(max, coefficient * (against * 10000 / supply) / 1000000 + min) / 10000
  }

  /** The stored quorum is the dynamic one of the stored votes against. */
  predicate FloorQuorum(p: Proposal) {
    IsFloorQuorum(p.quorumVotes, p.againstVotes, p.totalSupply, p.minQuorumVotesBPS, p.maxQuorumVotesBPS, p.quorumCoefficient)
  }

  lemma StoredFloorQuorum(p: Proposal)
    requires p.totalSupply >= 0 && Some(p.quorumVotes) == ProposalQuorum(p)
    ensures FloorQuorum(p)
  {
    Quorum.QuorumInNat(p.againstVotes, p.totalSupply, p.minQuorumVotesBPS, p.maxQuorumVotesBPS, p.quorumCoefficient);
  }

  /**
   Whether a proposal's quorum is dynamic is fixed when it is created: it is if the parameters started
   in an earlier block. A dynamic quorum is, after the first vote, that of all votes against so far
   under the parameters of its creation; any other is never changed.
   */
  lemma QuorumOverRun(s: Store, es: seq<Event>, id: ProposalId)
    requires id in s.proposals && Run(s, es).Some?
    requires Clocked(es, s.proposals[id].createdBlock) && NotRecreated(es, id)
    ensures id in Run(s, es).value.proposals
    ensures var p, q := s.proposals[id], Run(s, es).value.proposals[id];
            var dynamic := s.params.Some? && s.params.value.dynamicQuorumStartBlock.Some? &&
                           s.params.value.dynamicQuorumStartBlock.value < p.createdBlock;
            && SameSnapshot(p, q)
            && q.againstVotes == p.againstVotes + Against(es, id)
            && if dynamic && VotedOn(es, id) then p.totalSupply >= 0 ==> FloorQuorum(q) else q.quorumVotes == p.quorumVotes
  {
    ProposalOverRun(s, es, id);
    var q := Run(s, es).value.proposals[id];
    if q.totalSupply >= 0 && UsesDynamicQuorum(s.params, q.createdBlock) && VotedOn(es, id) {
      StoredFloorQuorum(q);
    }
  }

  /** The quorum parameters in force; all are 0 before the first is set. */
  function InForce(s: Store): QuorumParams {
    s.params.GetOr(QuorumParams(0, 0, 0, None))
  }

  /** The proposal's supply and parameters are those of the store. */
  predicate TakenFrom(s: Store, p: Proposal) {
    && p.totalSupply == GovernanceOf(s).totalTokenHolders
    && p.minQuorumVotesBPS == InForce(s).minQuorumVotesBPS && p.maxQuorumVotesBPS == InForce(s).maxQuorumVotesBPS
    && p.quorumCoefficient == InForce(s).quorumCoefficient
  }

  /** What a store records of a proposal that was created: its own blocks and quorum, and a snapshot of the supply and the parameters. */
  predicate Recorded(s: Store, e: Event, after: Store)
    requires e.action.ProposalCreated?
  {
    var a := e.action;
    a.id in after.proposals &&
    var p := after.proposals[a.id];
    && p.createdBlock == e.block && p.startBlock == a.startBlock && p.endBlock == a.endBlock
    && p.quorumVotes == a.quorumVotes && p.againstVotes == p.forVotes == p.abstainVotes == 0
    && TakenFrom(s, p)
    && UsesDynamicQuorum(after.params, e.block) == UsesDynamicQuorum(s.params, e.block)
  }

  lemma CreatedRecord(s: Store, e: Event)
    requires e.action.ProposalCreated?
    ensures Recorded(s, e, Step(s, e).value)
  {
    var s1 := CountProposal(s, e.action.id);
    EnsureDelegateLeaves(s1, e.action.proposer);
    assert GovernanceOf(s1).totalTokenHolders == GovernanceOf(s).totalTokenHolders;
  }

  /**
   From the creation of a proposal over any run: if the dynamic quorum had started before its block
   and it has been voted on, its quorum is that of all votes against under the supply and the
   parameters at its creation; otherwise it is the quorum of its creation event.
   */
  lemma QuorumFromCreation(s: Store, created: Event, mid: Store, es: seq<Event>)
    requires created.action.ProposalCreated? && Some(mid) == Step(s, created) && Run(mid, es).Some?
    requires Clocked(es, created.block) && NotRecreated(es, created.action.id)
    ensures created.action.id in Run(mid, es).value.proposals
    ensures var q := Run(mid, es).value.proposals[created.action.id];
            var dynamic := s.params.Some? && s.params.value.dynamicQuorumStartBlock.Some? &&
                           s.params.value.dynamicQuorumStartBlock.value < created.block;
            && q.againstVotes == Against(es, created.action.id) && TakenFrom(s, q)
            && if dynamic && VotedOn(es, created.action.id) then GovernanceOf(s).totalTokenHolders >= 0 ==> FloorQuorum(q)
               else q.quorumVotes == created.action.quorumVotes
  {
    CreatedRecord(s, created);
    QuorumOverRun(mid, es, created.action.id);
  }

  lemma VotedOnLast(es: seq<Event>, id: ProposalId)
    requires es != []
    ensures VotedOn(es, id) <==> VotedOn(es[..|es| - 1], id) || (es[|es| - 1].action.VoteCast? && es[|es| - 1].action.id == id)
  {
    assert es == es[..|es| - 1] + [es[|es| - 1]];
  }

  lemma {:induction false} RunAppend(s: Store, es: seq<Event>, more: seq<Event>)
    ensures Run(s, es + more) == if Run(s, es).None? then None else Run(Run(s, es).value, more)
  {
    if more == [] {
      assert es + more == es;
    } else {
      RunAppend(s, es, more[..|more| - 1]);
      assert (es + more)[..|es + more| - 1] == es + more[..|more| - 1];
    }
  }

  /** A stored dynamic quorum never falls after the first vote, whatever else happens: parameter changes do not touch it. */
  lemma QuorumNeverFalls(s: Store, es: seq<Event>, more: seq<Event>, id: ProposalId)
    requires id in s.proposals && s.proposals[id].totalSupply >= 0 && Run(s, es + more).Some?
    requires Clocked(es + more, s.proposals[id].createdBlock) && NotRecreated(es + more, id)
    requires UsesDynamicQuorum(s.params, s.proposals[id].createdBlock) && VotedOn(es, id)
    ensures Run(s, es).Some? && id in Run(s, es).value.proposals && id in Run(s, es + more).value.proposals
    ensures Run(s, es).value.proposals[id].quorumVotes <= Run(s, es + more).value.proposals[id].quorumVotes
  {
    RunAppend(s, es, more);
    ClockedPrefix(es, more, s.proposals[id].createdBlock);
    assert NotRecreated(es, id) by { assert forall e <- es :: e in es + more; }
    assert VotedOn(es + more, id) by { assert forall e <- es :: e in es + more; }
    ProposalOverRun(s, es, id);
    ProposalOverRun(s, es + more, id);
    AgainstGrows(es, more, id);
    var p, q := Run(s, es).value.proposals[id], Run(s, es + more).value.proposals[id];
    Quorum.QuorumMonotone(p.againstVotes, q.againstVotes, p.totalSupply, p.minQuorumVotesBPS, q.minQuorumVotesBPS,
                          p.maxQuorumVotesBPS, q.maxQuorumVotesBPS, p.quorumCoefficient, q.quorumCoefficient);
  }

  lemma ClockedPrefix(es: seq<Event>, more: seq<Event>, from: nat)
    requires Clocked(es + more, from)
    ensures Clocked(es, from)
  {
    assert forall i :: 0 <= i < |es| ==> (es + more)[i] == es[i];
  }

  lemma {:induction false} AgainstGrows(es: seq<Event>, more: seq<Event>, id: ProposalId)
    ensures Against(es, id) <= Against(es + more, id)
  {
    if more == [] {
      assert es + more == es;
    } else {
      AgainstGrows(es, more[..|more| - 1], id);
      assert (es + more)[..|es + more| - 1] == es + more[..|more| - 1];
    }
  }

  // ---------- votes in any order ----------

  predicate IsVote(e: Event) {
    e.action.VoteCast?
  }

  function VoteIdOf(e: Event): VoteId
    requires IsVote(e)
  {
    VoteId(e.action.voter, e.action.id)
  }

  /** One vote per voter and proposal. */
  predicate OneVoteEach(es: seq<Event>) {
    (forall e <- es :: IsVote(e)) &&
    forall i, j :: 0 <= i < j < |es| ==> VoteIdOf(es[i]) != VoteIdOf(es[j])
  }

  predicate SupplyKnown(s: Store) {
    forall id <- s.proposals :: s.proposals[id].totalSupply >= 0
  }

  /** The delegate records, and the governance entity that counts them, after a delegate was made sure of. */
  function WithDelegate(delegates: map<Address, Delegate>, governance: Option<Governance>, id: Address): (map<Address, Delegate>, Option<Governance>) {
    if id in delegates then (delegates, governance)
    else
      var g := governance.GetOr(NEW_GOVERNANCE);
      (delegates[id := NEW_DELEGATE], if id != ZERO_ADDRESS then Some(g.(totalDelegates := g.totalDelegates + 1)) else governance)
  }

  lemma WithDelegateCommutes(delegates: map<Address, Delegate>, governance: Option<Governance>, a: Address, b: Address)
    ensures var x := WithDelegate(delegates, governance, a);
            var y := WithDelegate(delegates, governance, b);
            WithDelegate(x.0, x.1, b) == WithDelegate(y.0, y.1, a)
  {
    if a != b && a !in delegates && b !in delegates {
      assert delegates[a := NEW_DELEGATE][b := NEW_DELEGATE] == delegates[b := NEW_DELEGATE][a := NEW_DELEGATE];
    }
  }

  lemma EnsureDelegateParts(s: Store, id: Address)
    ensures var s1 := EnsureDelegate(s, id);
            (s1.delegates, s1.governance) == WithDelegate(s.delegates, s.governance, id) &&
            s1 == s.(delegates := s1.delegates, governance := s1.governance) && DelegateOf(s1, id) == DelegateOf(s, id)
  {
  }

  function VoteRecord(s: Store, e: Event): Vote
    requires IsVote(e)
  {
    Vote(e.action.votes, e.action.votes, e.action.support, DelegateOf(s, e.action.voter).nounsRepresented, e.block)
  }

  function VotedProposal(s: Store, e: Event): Option<Proposal>
    requires IsVote(e)
  {
    var a := e.action;
    if a.id !in s.proposals then None
    else Voted(s.proposals[a.id], a.support, a.votes, UsesDynamicQuorum(s.params, s.proposals[a.id].createdBlock))
  }

  /** What a vote stores, part by part. */
  lemma VoteParts(s: Store, e: Event)
    requires IsVote(e)
    ensures Step(s, e).Some? <==> VotedProposal(s, e).Some?
    ensures Step(s, e).Some? ==>
              var s' := Step(s, e).value;
              && s'.accounts == s.accounts && s'.nouns == s.nouns
              && (s'.delegates, s'.governance) == WithDelegate(s.delegates, s.governance, e.action.voter)
              && s'.params == EnsureParams(s, None).params
              && s'.votes == s.votes[VoteIdOf(e) := VoteRecord(s, e)]
              && s'.proposals == s.proposals[e.action.id := VotedProposal(s, e).value]
  {
    EnsureDelegateParts(s, e.action.voter);
    SameQuorumRule(s, EnsureDelegate(s, e.action.voter));
  }

  lemma SameQuorumRule(s: Store, s1: Store)
    requires s1.params == s.params
    ensures EnsureParams(s1, None).params == EnsureParams(s, None).params
    ensures forall block :: UsesDynamicQuorum(EnsureParams(s1, None).params, block) == UsesDynamicQuorum(s.params, block)
  {
  }

  function TwoSteps(s: Store, e: Event, f: Event): Option<Store> {
    var mid :- Step(s, e);
    Step(mid, f)
  }

  /** What two votes do to the proposals; `None` when one of them aborts. */
  function ProposalsAfterTwo(s: Store, e: Event, f: Event): Option<map<ProposalId, Proposal>>
    requires IsVote(e) && IsVote(f)
  {
    var a, b := e.action, f.action;
    if a.id !in s.proposals || b.id !in s.proposals then None
    else
      var dynamicA := UsesDynamicQuorum(s.params, s.proposals[a.id].createdBlock);
      var dynamicB := UsesDynamicQuorum(s.params, s.proposals[b.id].createdBlock);
      if a.id == b.id then
        var p :- VotedTwice(s.proposals[a.id], a.support, a.votes, b.support, b.votes, dynamicA);
        Some(s.proposals[a.id := p])
      else
        var p :- Voted(s.proposals[a.id], a.support, a.votes, dynamicA);
        var q :- Voted(s.proposals[b.id], b.support, b.votes, dynamicB);
        Some(s.proposals[a.id := p][b.id := q])
  }

  lemma ProposalsCommute(s: Store, e: Event, f: Event)
    requires IsVote(e) && IsVote(f) && SupplyKnown(s)
    ensures ProposalsAfterTwo(s, e, f) == ProposalsAfterTwo(s, f, e)
  {
    var a, b := e.action, f.action;
    if a.id in s.proposals && b.id in s.proposals {
      if a.id == b.id {
        VotesCommute(s.proposals[a.id], a.support, a.votes, b.support, b.votes,
                     UsesDynamicQuorum(s.params, s.proposals[a.id].createdBlock));
      } else if ProposalsAfterTwo(s, e, f).Some? {
        var p := ProposalsAfterTwo(s, e, f).value[a.id];
        var q := ProposalsAfterTwo(s, e, f).value[b.id];
        assert s.proposals[a.id := p][b.id := q] == s.proposals[b.id := q][a.id := p];
      }
    }
  }

  lemma TwoVoteParts(s: Store, e: Event, f: Event)
    requires IsVote(e) && IsVote(f) && VoteIdOf(e) != VoteIdOf(f)
    ensures TwoSteps(s, e, f).Some? <==> ProposalsAfterTwo(s, e, f).Some?
    ensures TwoSteps(s, e, f).Some? ==>
              var s' := TwoSteps(s, e, f).value;
              var x := WithDelegate(s.delegates, s.governance, e.action.voter);
              && s'.accounts == s.accounts && s'.nouns == s.nouns
              && (s'.delegates, s'.governance) == WithDelegate(x.0, x.1, f.action.voter)
              && s'.params == EnsureParams(s, None).params
              && s'.votes == s.votes[VoteIdOf(e) := VoteRecord(s, e)][VoteIdOf(f) := VoteRecord(s, f)]
              && s'.proposals == ProposalsAfterTwo(s, e, f).value
  {
    VoteParts(s, e);
    if Step(s, e).Some? {
      var mid := Step(s, e).value;
      VoteParts(mid, f);
      SameRecord(s, mid, e, f);
    }
  }

  lemma SameRecord(s: Store, mid: Store, e: Event, f: Event)
    requires IsVote(e) && IsVote(f) && (mid.delegates, mid.governance) == WithDelegate(s.delegates, s.governance, e.action.voter)
    requires mid.params == EnsureParams(s, None).params
    ensures VoteRecord(mid, f) == VoteRecord(s, f)
    ensures EnsureParams(mid, None).params == mid.params
    ensures forall block :: UsesDynamicQuorum(mid.params, block) == UsesDynamicQuorum(s.params, block)
  {
  }

  /** Two votes by different voters, or on different proposals, come to the same store in either order. */
  lemma StepsCommute(s: Store, e: Event, f: Event)
    requires IsVote(e) && IsVote(f) && VoteIdOf(e) != VoteIdOf(f) && SupplyKnown(s)
    ensures TwoSteps(s, e, f) == TwoSteps(s, f, e)
  {
    TwoVoteParts(s, e, f);
    TwoVoteParts(s, f, e);
    ProposalsCommute(s, e, f);
    WithDelegateCommutes(s.delegates, s.governance, e.action.voter, f.action.voter);
    if TwoSteps(s, e, f).Some? {
      assert TwoSteps(s, e, f).value.votes == TwoSteps(s, f, e).value.votes;
    }
  }

  lemma {:induction false} SupplyStaysKnown(s: Store, es: seq<Event>)
    requires SupplyKnown(s) && Run(s, es).Some? && forall e <- es :: IsVote(e)
    ensures SupplyKnown(Run(s, es).value)
  {
    if es != [] {
      var prefix, e := es[..|es| - 1], es[|es| - 1];
      SupplyStaysKnown(s, prefix);
      var mid := Run(s, prefix).value;
      VoteParts(mid, e);
      assert mid.proposals[e.action.id].totalSupply >= 0;
    }
  }

  lemma RunTwo(s: Store, e: Event, f: Event)
    ensures Run(s, [e, f]) == TwoSteps(s, e, f)
  {
    assert [e][..0] == [];
    assert Run(s, [e]) == Step(s, e);
    assert [e, f][..1] == [e];
  }

  /** Swapping neighbours. */
  lemma SwapNeighbours(s: Store, a: seq<Event>, e: Event, f: Event, b: seq<Event>)
    requires SupplyKnown(s) && (forall v <- a :: IsVote(v)) && IsVote(e) && IsVote(f) && VoteIdOf(e) != VoteIdOf(f)
    ensures Run(s, a + [e, f] + b) == Run(s, a + [f, e] + b)
  {
    RunAppend(s, a + [e, f], b);
    RunAppend(s, a + [f, e], b);
    RunAppend(s, a, [e, f]);
    RunAppend(s, a, [f, e]);
    if Run(s, a).Some? {
      var mid := Run(s, a).value;
      SupplyStaysKnown(s, a);
      StepsCommute(mid, e, f);
      RunTwo(mid, e, f);
      RunTwo(mid, f, e);
    }
  }

  lemma MoveOver(a: seq<Event>, e: Event, b: seq<Event>)
    requires b != []
    ensures a + [e] + b == a + [e, b[0]] + b[1..]
    ensures a + [b[0]] + [e] + b[1..] == a + [b[0], e] + b[1..]
    ensures a + [b[0]] + b[1..] == a + b
  {
  }

  /** A vote that shares its id with none of the votes after it can be cast last. */
  lemma {:induction false} MoveToEnd(s: Store, a: seq<Event>, e: Event, b: seq<Event>)
    requires SupplyKnown(s) && (forall v <- a :: IsVote(v)) && IsVote(e)
    requires forall v <- b :: IsVote(v) && VoteIdOf(v) != VoteIdOf(e)
    ensures Run(s, a + [e] + b) == Run(s, a + b + [e])
    decreases |b|
  {
    if b == [] {
      assert a + [e] + b == a + b + [e];
    } else {
      SwapNeighbours(s, a, e, b[0], b[1..]);
      MoveToEnd(s, a + [b[0]], e, b[1..]);
      MoveOver(a, e, b);
    }
  }

  lemma Split(fs: seq<Event>, e: Event) returns (a: seq<Event>, b: seq<Event>)
    requires e in fs
    ensures fs == a + [e] + b
    ensures multiset(a + b) == multiset(fs) - multiset{e}
  {
    var k :| 0 <= k < |fs| && fs[k] == e;
    a, b := fs[..k], fs[k + 1..];
    assert fs == a + [e] + b;
    assert multiset(a + [e] + b) == multiset(a) + multiset{e} + multiset(b);
  }

  /** The last event of one list is somewhere in its permutation; without it, both are permutations again. */
  lemma FindLast(es: seq<Event>, fs: seq<Event>) returns (a: seq<Event>, b: seq<Event>)
    requires es != [] && multiset(es) == multiset(fs)
    ensures fs == a + [es[|es| - 1]] + b
    ensures multiset(es[..|es| - 1]) == multiset(a + b)
  {
    var prefix, e := es[..|es| - 1], es[|es| - 1];
    assert es == prefix + [e];
    assert e in multiset(fs);
    a, b := Split(fs, e);
    assert multiset(prefix + [e]) == multiset(prefix) + multiset{e};
  }

  lemma RunLast(s: Store, es: seq<Event>, e: Event)
    ensures Run(s, es + [e]) == if Run(s, es).None? then None else Step(Run(s, es).value, e)
  {
    assert (es + [e])[..|es|] == es;
  }

  /** Any permutation of the votes gives the same store, or aborts as well. */
  lemma {:induction false} VotesInAnyOrder(s: Store, es: seq<Event>, fs: seq<Event>)
    requires SupplyKnown(s) && OneVoteEach(es) && OneVoteEach(fs) && multiset(es) == multiset(fs)
    ensures Run(s, es) == Run(s, fs)
    decreases |es|
  {
    if es == [] {
      assert |fs| == |multiset(fs)|;
    } else {
      var prefix, e := es[..|es| - 1], es[|es| - 1];
      var a, b := FindLast(es, fs);
      PrefixKeepsOneVoteEach(es);
      DropKeepsOneVoteEach(a, e, b);
      MoveToEnd(s, a, e, b);
      VotesInAnyOrder(s, prefix, a + b);
      RunLast(s, a + b, e);
    }
  }

  lemma PrefixKeepsOneVoteEach(es: seq<Event>)
    requires es != [] && OneVoteEach(es)
    ensures OneVoteEach(es[..|es| - 1])
  {
  }

  lemma DropKeepsOneVoteEach(a: seq<Event>, e: Event, b: seq<Event>)
    requires OneVoteEach(a + [e] + b)
    ensures OneVoteEach(a + b) && IsVote(e) && (forall v <- a :: IsVote(v))
    ensures forall v <- b :: IsVote(v) && VoteIdOf(v) != VoteIdOf(e)
  {
    var all, rest := a + [e] + b, a + b;
    assert forall i :: 0 <= i < |rest| ==> rest[i] == all[if i < |a| then i else i + 1];
    assert all[|a|] == e;
    assert forall i :: 0 <= i < |a| ==> a[i] == all[i];
    assert forall i :: 0 <= i < |b| ==> b[i] == all[|a| + 1 + i];
  }
}
