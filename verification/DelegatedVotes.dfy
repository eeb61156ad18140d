/** `handleDelegateVotesChanged`: the governance totals against the balances of the delegates. */
module DelegatedVotes {
  import opened Entities
  import opened Sums

  /** The governance copy is loaded before the delegate may be created, and saved after. */
  function AfterVotesChanged(s: Store, delegate: Address, previousBalance: nat, newBalance: nat): Store {
    var g := GovernanceOf(s);
    var s1 := EnsureDelegate(s, delegate);
    var s2 := SaveDelegate(s1, delegate, s1.delegates[delegate].(delegatedVotesRaw := newBalance, delegatedVotes := newBalance));
    var g1 := if previousBalance == 0 && newBalance > 0 then g.(currentDelegates := g.currentDelegates + 1) else g;
    var g2 := if newBalance == 0 then g1.(currentDelegates := g1.currentDelegates - 1) else g1;
    var total := g2.delegatedVotesRaw + (newBalance - previousBalance);
    SaveGovernance(s2, g2.(delegatedVotesRaw := total, delegatedVotes := total))
  }

  function VotesOf(delegates: map<Address, Delegate>, d: Address): int {
    if d in delegates then delegates[d].delegatedVotes else 0
  }

  ghost function TotalVotes(delegates: map<Address, Delegate>): int {
    SumOver(delegates.Keys, d => VotesOf(delegates, d))
  }

  /** The delegates with a positive balance. */
  function Active(delegates: map<Address, Delegate>): set<Address> {
    set d | d in delegates && delegates[d].delegatedVotes > 0
  }

  ghost predicate VotesRight(s: Store) {
    var g := GovernanceOf(s);
    && (forall d <- s.delegates :: s.delegates[d].delegatedVotesRaw == s.delegates[d].delegatedVotes >= 0)
    && g.delegatedVotes == g.delegatedVotesRaw == TotalVotes(s.delegates)
    && g.currentDelegates == |Active(s.delegates)|
  }

  /** The event names the recorded balance, and one of its two balances is positive. */
  predicate WellFormedVotesChanged(s: Store, delegate: Address, previousBalance: nat, newBalance: nat) {
    previousBalance == VotesOf(s.delegates, delegate) && (previousBalance > 0 || newBalance > 0)
  }

  lemma VotesChangedDelegates(s: Store, delegate: Address, previousBalance: nat, newBalance: nat)
    ensures AfterVotesChanged(s, delegate, previousBalance, newBalance).delegates ==
            s.delegates[delegate := DelegateOf(s, delegate).(delegatedVotesRaw := newBalance, delegatedVotes := newBalance)]
    ensures var g, after := GovernanceOf(s), GovernanceOf(AfterVotesChanged(s, delegate, previousBalance, newBalance));
            && after.delegatedVotes == after.delegatedVotesRaw == g.delegatedVotesRaw + newBalance - previousBalance
            && after.currentDelegates == g.currentDelegates + (if previousBalance == 0 && newBalance > 0 then 1 else 0)
                                         - (if newBalance == 0 then 1 else 0)
  {
  }

  lemma TotalAfter(delegates: map<Address, Delegate>, delegate: Address, d: Delegate)
    ensures TotalVotes(delegates[delegate := d]) == TotalVotes(delegates) - VotesOf(delegates, delegate) + d.delegatedVotes
  {
    var more := delegates[delegate := d];
    SumUpdate(delegates.Keys, a => VotesOf(delegates, a), a => VotesOf(more, a), delegate);
    assert more.Keys == delegates.Keys + {delegate};
  }

  lemma ActiveAfter(delegates: map<Address, Delegate>, delegate: Address, d: Delegate)
    ensures |Active(delegates[delegate := d])| ==
            |Active(delegates)| - (if VotesOf(delegates, delegate) > 0 then 1 else 0) + (if d.delegatedVotes > 0 then 1 else 0)
  {
    var rest := Active(delegates) - {delegate};
    assert delegate in Active(delegates) <==> VotesOf(delegates, delegate) > 0;
    assert Active(delegates[delegate := d]) == if d.delegatedVotes > 0 then rest + {delegate} else rest;
  }

  /**
   The totals stay right on exactly those events: the total is the sum over the delegates, and
   `currentDelegates` counts the positive ones.
   */
  lemma VotesChangedExact(s: Store, delegate: Address, previousBalance: nat, newBalance: nat)
    requires VotesRight(s)
    ensures VotesRight(AfterVotesChanged(s, delegate, previousBalance, newBalance)) <==>
            WellFormedVotesChanged(s, delegate, previousBalance, newBalance)
  {
    var d := DelegateOf(s, delegate).(delegatedVotesRaw := newBalance, delegatedVotes := newBalance);
    VotesChangedDelegates(s, delegate, previousBalance, newBalance);
    TotalAfter(s.delegates, delegate, d);
    ActiveAfter(s.delegates, delegate, d);
  }
}
