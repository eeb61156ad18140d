/**
 The delegates that the token contract keeps, against those that the indexer records. The contract
 never forgets a delegate; the indexer drops the delegate of an account that holds nothing, and makes
 an account that gets its first noun its own delegate.
 */
module ContractRuns {
  import opened Entities
  import opened Events
  import opened TokenIndex
  import opened Wrappers

  /** The contract's `_delegates`, which no transfer changes. */
  type Delegations = map<Address, Address>

  /** The contract's `delegates`: an account that has not delegated is its own delegate. */
  function Delegates(c: Delegations, a: Address): Address {
    if a in c && c[a] != ZERO_ADDRESS then c[a] else a
  }

  function ContractStep(c: Delegations, action: Action): Delegations {
    if action.DelegateChanged? then c[action.delegator := action.toDelegate] else c
  }

  function ContractRun(c: Delegations, es: seq<Event>): Delegations {
    if es == [] then c else ContractStep(ContractRun(c, es[..|es| - 1]), es[|es| - 1].action)
  }

  predicate OfTokens(action: Action) {
    action.Transfer? || action.DelegateChanged?
  }

  /**
   What the contract checks: a minted noun is new, any other is its sender's, and a delegation is from
   the delegate that the contract has. Neither a balance nor a change is checked.
   */
  predicate Emitted(t: Truth, c: Delegations, action: Action)
    requires OfTokens(action)
  {
    match action
    case Transfer(from, to, noun) => if from == ZERO_ADDRESS then noun !in t.owner else t.Owns(from, noun)
    case DelegateChanged(delegator, fromDelegate, _) => delegator != ZERO_ADDRESS && fromDelegate == Delegates(c, delegator)
  }

  /**
   What the contract does not check: a noun goes to somebody else, and an account that gets its first
   noun is its own delegate; a delegator holds a noun, and the change is one, and not to nobody.
   */
  predicate Tame(t: Truth, c: Delegations, action: Action)
    requires OfTokens(action)
  {
    match action
    case Transfer(from, to, _) => (from == ZERO_ADDRESS || from != to) && (to in t.delegate || Delegates(c, to) == to)
    case DelegateChanged(delegator, fromDelegate, toDelegate) =>
      delegator in t.delegate && fromDelegate != toDelegate && toDelegate != ZERO_ADDRESS
  }

  /** Every holder delegates to the delegate that the contract has. */
  predicate Follows(t: Truth, c: Delegations) {
    forall a <- t.delegate :: t.delegate[a] == Delegates(c, a)
  }

  /** Then the recorded delegate of every account with a balance is the contract's. */
  lemma RecordedIsContracts(s: Store, t: Truth, c: Delegations, a: Address)
    requires Right(s, t) && Follows(t, c)
    ensures AccountOf(s, a).delegate == if AccountOf(s, a).tokenBalance > 0 then Some(Delegates(c, a)) else None
  {
    Look(s, t, a);
  }

  lemma TransferFollows(t: Truth, c: Delegations, from: Address, to: Address, id: NounId)
    requires Follows(t, c) && (from == ZERO_ADDRESS || from != to)
    ensures Follows(TruthTransfer(t, from, to, id), c) <==> to in t.delegate || Delegates(c, to) == to
  {
    var after := TruthTransfer(t, from, to, id);
    assert to in after.delegate && after.delegate[to] == if to in t.delegate then t.delegate[to] else to;
    assert forall a <- after.delegate :: a != to ==> a in t.delegate && after.delegate[a] == t.delegate[a];
  }

  lemma DelegationFollows(t: Truth, c: Delegations, delegator: Address, toDelegate: Address)
    requires Follows(t, c) && delegator != ZERO_ADDRESS
    ensures Follows(TruthDelegateChanged(t, delegator, toDelegate), c[delegator := toDelegate]) <==>
            toDelegate != ZERO_ADDRESS
  {
    var after, c' := TruthDelegateChanged(t, delegator, toDelegate), c[delegator := toDelegate];
    assert delegator in after.delegate && after.delegate[delegator] == toDelegate;
    assert forall a <- after.delegate :: a != delegator ==> a in t.delegate && Delegates(c', a) == Delegates(c, a);
  }

  function AfterTokens(s: Store, action: Action): Store
    requires OfTokens(action)
  {
    match action
    case Transfer(from, to, noun) => AfterTransfer(s, from, to, noun)
    case DelegateChanged(delegator, fromDelegate, toDelegate) => AfterDelegateChanged(s, delegator, fromDelegate, toDelegate)
  }

  /** An event that the contract emits keeps the index right and the delegates the contract's, if and only if it is tame. */
  lemma TokensExact(s: Store, t: Truth, c: Delegations, action: Action)
    requires OfTokens(action) && Right(s, t) && Follows(t, c) && Emitted(t, c, action)
    ensures (Right(AfterTokens(s, action), TruthStep(t, action)) && Follows(TruthStep(t, action), ContractStep(c, action))) <==>
            Tame(t, c, action)
    ensures Tame(t, c, action) ==> WellFormed(s, t, action)
  {
    match action {
      case Transfer(from, to, noun) =>
        TransferExact(s, t, from, to, noun);
        if from == ZERO_ADDRESS || from != to {
          TransferFollows(t, c, from, to, noun);
        }
      case DelegateChanged(delegator, fromDelegate, toDelegate) =>
        DelegationExact(s, t, delegator, fromDelegate, toDelegate);
        DelegationFollows(t, c, delegator, toDelegate);
    }
  }

  // ---------- over whole runs ----------

  /** A run as the contracts emit it; of the events that are not about tokens the usual is assumed. */
  predicate EmittedRun(es: seq<Event>) {
    es == [] ||
    var prefix, action := es[..|es| - 1], es[|es| - 1].action;
    && EmittedRun(prefix)
    && Run(EMPTY_STORE, es).Some?
    && if OfTokens(action) then Emitted(TruthRun(NO_NOUNS, prefix), ContractRun(map[], prefix), action)
       else WellFormed(Run(EMPTY_STORE, prefix).value, TruthRun(NO_NOUNS, prefix), action)
  }

  predicate TameRun(es: seq<Event>) {
    es == [] ||
    var prefix, action := es[..|es| - 1], es[|es| - 1].action;
    TameRun(prefix) && (OfTokens(action) ==> Tame(TruthRun(NO_NOUNS, prefix), ContractRun(map[], prefix), action))
  }

  /** After every event the store agrees with the truth, and the truth with the contract's delegates. */
  ghost predicate FollowsAllAlong(es: seq<Event>)
    requires EmittedRun(es)
  {
    && Sound(Run(EMPTY_STORE, es).value, TruthRun(NO_NOUNS, es))
    && Follows(TruthRun(NO_NOUNS, es), ContractRun(map[], es))
    && (es == [] || FollowsAllAlong(es[..|es| - 1]))
  }

  /** One event of a run. */
  lemma EventExact(s: Store, t: Truth, c: Delegations, e: Event)
    requires Sound(s, t) && Follows(t, c) && Step(s, e).Some?
    requires if OfTokens(e.action) then Emitted(t, c, e.action) else WellFormed(s, t, e.action)
    ensures (Sound(Step(s, e).value, TruthStep(t, e.action)) && Follows(TruthStep(t, e.action), ContractStep(c, e.action))) <==>
            (OfTokens(e.action) ==> Tame(t, c, e.action))
    ensures (OfTokens(e.action) ==> Tame(t, c, e.action)) ==> WellFormed(s, t, e.action)
  {
    if OfTokens(e.action) {
      TokensExact(s, t, c, e.action);
      assert Step(s, e) == Some(AfterTokens(s, e.action));
      if Tame(t, c, e.action) {
        StepKeeps(s, t, e);
      }
    } else {
      StepKeeps(s, t, e);
    }
  }

  /**
   In a run of events as the contracts emit them the index is right all along and the recorded
   delegates are the contract's, if and only if every event is tame; and a tame run is well formed.
   */
  lemma {:induction false} ContractRunExact(es: seq<Event>)
    requires EmittedRun(es)
    ensures FollowsAllAlong(es) <==> TameRun(es)
    ensures TameRun(es) ==> WellFormedRun(EMPTY_STORE, NO_NOUNS, es)
  {
    if es == [] {
      EmptyIsSound();
    } else {
      var prefix, e := es[..|es| - 1], es[|es| - 1];
      ContractRunExact(prefix);
      if TameRun(prefix) {
        EventExact(Run(EMPTY_STORE, prefix).value, TruthRun(NO_NOUNS, prefix), ContractRun(map[], prefix), e);
      }
    }
  }

  // ---------- an account that comes back ----------

  /** The only noun is moved by its only holder. */
  lemma OnlyNounMoves(t: Truth, from: Address, to: Address, n: NounId)
    requires t.owner == map[n := from] && t.delegate.Keys == {from} && from != to && from != ZERO_ADDRESS
    ensures TruthTransfer(t, from, to, n) == Truth(map[n := to], map[to := to])
  {
    var owned := t.(owner := t.owner[n := to]);
    assert owned.owner == map[n := to];
    assert !owned.Holds(from);
    assert t.delegate - {from} == map[];
  }

  /** One noun, its holder and the holder's delegate. */
  function OneHolder(a: Address, d: Address, n: NounId): Truth {
    Truth(map[n := a], map[a := d])
  }

  lemma MintedTo(a: Address, n: NounId)
    requires a != ZERO_ADDRESS
    ensures Right(AfterTransfer(EMPTY_STORE, ZERO_ADDRESS, a, n), OneHolder(a, a, n))
  {
    EmptyIsSound();
    TransferExact(EMPTY_STORE, NO_NOUNS, ZERO_ADDRESS, a, n);
    assert TruthTransfer(NO_NOUNS, ZERO_ADDRESS, a, n) == OneHolder(a, a, n);
  }

  lemma OneDelegates(a: Address, d: Address, b: Address, n: NounId)
    ensures TruthDelegateChanged(OneHolder(a, d, n), a, b) == OneHolder(a, b, n)
  {
    assert map[a := d][a := b] == map[a := b];
  }

  lemma DelegatedTo(s: Store, a: Address, b: Address, n: NounId)
    requires Right(s, OneHolder(a, a, n)) && a != b
    ensures Right(AfterDelegateChanged(s, a, a, b), OneHolder(a, b, n))
  {
    DelegationExact(s, OneHolder(a, a, n), a, a, b);
    OneDelegates(a, a, b, n);
  }

  lemma SentTo(s: Store, a: Address, d: Address, x: Address, n: NounId)
    requires Right(s, OneHolder(a, d, n)) && a != x && a != ZERO_ADDRESS
    ensures Right(AfterTransfer(s, a, x, n), OneHolder(x, x, n))
  {
    TransferExact(s, OneHolder(a, d, n), a, x, n);
    OnlyNounMoves(OneHolder(a, d, n), a, x, n);
  }

  /** Account `a` gets noun `n` and delegates to `b`. */
  function Away(a: Address, b: Address, n: NounId): Store {
    AfterDelegateChanged(AfterTransfer(EMPTY_STORE, ZERO_ADDRESS, a, n), a, a, b)
  }

  /** Then it sends the noun to `x` and gets it back. */
  function Back(a: Address, b: Address, x: Address, n: NounId): Store {
    AfterTransfer(AfterTransfer(Away(a, b, n), a, x, n), x, a, n)
  }

  lemma AwayIsRight(a: Address, b: Address, n: NounId)
    requires a != ZERO_ADDRESS && a != b
    ensures Right(Away(a, b, n), OneHolder(a, b, n))
  {
    MintedTo(a, n);
    DelegatedTo(AfterTransfer(EMPTY_STORE, ZERO_ADDRESS, a, n), a, b, n);
  }

  lemma BackIsRight(a: Address, b: Address, x: Address, n: NounId)
    requires a != ZERO_ADDRESS && x != ZERO_ADDRESS && a != b && a != x
    ensures Right(Back(a, b, x, n), OneHolder(a, a, n))
  {
    AwayIsRight(a, b, n);
    SentTo(Away(a, b, n), a, b, x, n);
    SentTo(AfterTransfer(Away(a, b, n), a, x, n), x, x, a, n);
  }

  /** A delegation from `b` of an account that is recorded as its own delegate represents its noun twice. */
  lemma RepresentedTwice(s: Store, a: Address, b: Address, d: Address, n: NounId)
    requires Right(s, OneHolder(a, a, n)) && a != b && a != d
    ensures var after := AfterDelegateChanged(s, a, b, d);
            && n in RepresentedBy(after, a) && n in RepresentedBy(after, d)
            && !Right(after, TruthDelegateChanged(OneHolder(a, a, n), a, d))
  {
    var t := OneHolder(a, a, n);
    DelegationExact(s, t, a, b, d);
    Look(s, t, a);
    assert t.Owns(a, n) && t.Represents(a, n);
    assert RepresentsExactly(RepresentedBy(s, a), t, a);
    DelegationLists(s, a, b, d, a);
    DelegationLists(s, a, b, d, d);
  }

  function HasDelegated(a: Address, b: Address): Delegations {
    map[a := b]
  }

  lemma StillContracts(a: Address, b: Address, d: Address, n: NounId)
    requires a != ZERO_ADDRESS && b != ZERO_ADDRESS && a != b
    ensures Emitted(OneHolder(a, a, n), HasDelegated(a, b), DelegateChanged(a, b, d))
    ensures !Follows(OneHolder(a, a, n), HasDelegated(a, b))
  {
    assert a in OneHolder(a, a, n).delegate;
  }

  /**
   The contract still has `b` as the delegate of `a`, so that its next delegation, to `d`, is from `b`;
   the indexer has recorded `a` itself, and ends with the noun in the lists of both `a` and `d`.
   */
  lemma StaleDelegate(a: Address, b: Address, x: Address, d: Address, n: NounId)
    requires a != ZERO_ADDRESS && b != ZERO_ADDRESS && x != ZERO_ADDRESS && a != b && a != x && a != d
    ensures var s, t := Back(a, b, x, n), OneHolder(a, a, n);
            var after := AfterDelegateChanged(s, a, b, d);
            && Right(s, t) && Emitted(t, HasDelegated(a, b), DelegateChanged(a, b, d)) && !Follows(t, HasDelegated(a, b))
            && n in RepresentedBy(after, a) && n in RepresentedBy(after, d)
            && !Right(after, TruthDelegateChanged(t, a, d))
  {
    BackIsRight(a, b, x, n);
    StillContracts(a, b, d, n);
    RepresentedTwice(Back(a, b, x, n), a, b, d, n);
  }

  // ---------- the same as a run ----------

  /** What a run has come to: the store, the truth and the contract's delegates. */
  ghost predicate Reaches(es: seq<Event>, s: Store, t: Truth, c: Delegations) {
    EmittedRun(es) && Run(EMPTY_STORE, es) == Some(s) && TruthRun(NO_NOUNS, es) == t && ContractRun(map[], es) == c
  }

  lemma ReachesNext(es: seq<Event>, s: Store, t: Truth, c: Delegations, e: Event)
    requires Reaches(es, s, t, c) && OfTokens(e.action) && Emitted(t, c, e.action)
    ensures Reaches(es + [e], AfterTokens(s, e.action), TruthStep(t, e.action), ContractStep(c, e.action))
    ensures TameRun(es + [e]) <==> TameRun(es) && Tame(t, c, e.action)
  {
    assert (es + [e])[..|es|] == es;
  }

  /** The contract's events when `a` gets `n`, delegates to `b`, sends `n` to `x`, gets it back and delegates to `d`. */
  function Story(a: Address, b: Address, x: Address, d: Address, n: NounId): seq<Event> {
    [Event(0, Transfer(ZERO_ADDRESS, a, n)), Event(0, DelegateChanged(a, a, b)), Event(0, Transfer(a, x, n)),
     Event(0, Transfer(x, a, n)), Event(0, DelegateChanged(a, b, d))]
  }

  lemma StoryStarts(a: Address, b: Address, n: NounId)
    requires a != ZERO_ADDRESS && b != ZERO_ADDRESS && a != b
    ensures Reaches([Event(0, Transfer(ZERO_ADDRESS, a, n)), Event(0, DelegateChanged(a, a, b))],
                    Away(a, b, n), OneHolder(a, b, n), HasDelegated(a, b))
  {
    var e, f := Event(0, Transfer(ZERO_ADDRESS, a, n)), Event(0, DelegateChanged(a, a, b));
    assert [] + [e] == [e] && [e] + [f] == [e, f];
    ReachesNext([], EMPTY_STORE, NO_NOUNS, map[], e);
    assert TruthTransfer(NO_NOUNS, ZERO_ADDRESS, a, n) == OneHolder(a, a, n);
    OneDelegates(a, a, b, n);
    ReachesNext([e], AfterTransfer(EMPTY_STORE, ZERO_ADDRESS, a, n), OneHolder(a, a, n), map[], f);
  }

  lemma SentNext(es: seq<Event>, s: Store, a: Address, d: Address, x: Address, c: Delegations, n: NounId)
    requires Reaches(es, s, OneHolder(a, d, n), c) && a != ZERO_ADDRESS && a != x
    ensures Reaches(es + [Event(0, Transfer(a, x, n))], AfterTransfer(s, a, x, n), OneHolder(x, x, n), c)
    ensures TameRun(es + [Event(0, Transfer(a, x, n))]) ==> Delegates(c, x) == x
  {
    OnlyNounMoves(OneHolder(a, d, n), a, x, n);
    ReachesNext(es, s, OneHolder(a, d, n), c, Event(0, Transfer(a, x, n)));
  }

  lemma Appended(e: Event, f: Event, g: Event, h: Event, i: Event)
    ensures [e, f] + [g] == [e, f, g] && [e, f, g] + [h] == [e, f, g, h] && [e, f, g, h] + [i] == [e, f, g, h, i]
  {
  }

  lemma StoryComesBack(es: seq<Event>, s: Store, a: Address, b: Address, x: Address, n: NounId)
    requires a != ZERO_ADDRESS && b != ZERO_ADDRESS && x != ZERO_ADDRESS && a != b && a != x
    requires Reaches(es, s, OneHolder(a, b, n), HasDelegated(a, b))
    ensures var all := es + [Event(0, Transfer(a, x, n))] + [Event(0, Transfer(x, a, n))];
            && Reaches(all, AfterTransfer(AfterTransfer(s, a, x, n), x, a, n), OneHolder(a, a, n), HasDelegated(a, b))
            && !TameRun(all)
  {
    SentNext(es, s, a, b, x, HasDelegated(a, b), n);
    SentNext(es + [Event(0, Transfer(a, x, n))], AfterTransfer(s, a, x, n), x, x, a, HasDelegated(a, b), n);
  }

  lemma LastDelegation(es: seq<Event>, s: Store, a: Address, b: Address, d: Address, n: NounId)
    requires a != ZERO_ADDRESS && b != ZERO_ADDRESS && a != b
    requires Reaches(es, s, OneHolder(a, a, n), HasDelegated(a, b)) && !TameRun(es)
    ensures var all := es + [Event(0, DelegateChanged(a, b, d))];
            && EmittedRun(all) && !TameRun(all) && !FollowsAllAlong(all)
            && Run(EMPTY_STORE, all) == Some(AfterDelegateChanged(s, a, b, d))
  {
    StillContracts(a, b, d, n);
    ReachesNext(es, s, OneHolder(a, a, n), HasDelegated(a, b), Event(0, DelegateChanged(a, b, d)));
    ContractRunExact(es + [Event(0, DelegateChanged(a, b, d))]);
  }

  /** A run as the contract emits it that is not tame: at its end the noun is in the lists of both `a` and `d`. */
  lemma StaleRun(a: Address, b: Address, x: Address, d: Address, n: NounId)
    requires a != ZERO_ADDRESS && b != ZERO_ADDRESS && x != ZERO_ADDRESS && a != b && a != x && a != d
    ensures var es := Story(a, b, x, d, n);
            && EmittedRun(es) && !TameRun(es) && !FollowsAllAlong(es) && Run(EMPTY_STORE, es).Some?
            && n in RepresentedBy(Run(EMPTY_STORE, es).value, a) && n in RepresentedBy(Run(EMPTY_STORE, es).value, d)
  {
    var e, f := Event(0, Transfer(ZERO_ADDRESS, a, n)), Event(0, DelegateChanged(a, a, b));
    var g, h, i := Event(0, Transfer(a, x, n)), Event(0, Transfer(x, a, n)), Event(0, DelegateChanged(a, b, d));
    Appended(e, f, g, h, i);
    StoryStarts(a, b, n);
    StoryComesBack([e, f], Away(a, b, n), a, b, x, n);
    LastDelegation([e, f, g, h], Back(a, b, x, n), a, b, d, n);
    StaleDelegate(a, b, x, d, n);
  }
}
