/**
 The transactions of the token contract, with the vote events they emit: `_moveDelegates` keeps a
 balance of votes for each delegate and emits its changes. When the transactions are tame the votes
 that the indexer records for a delegate are the number of nouns it lists for it.
 */
module Transactions {
  import opened ContractRuns
  import opened DelegatedVotes
  import opened Entities
  import opened Events
  import opened Frames
  import opened Lists
  import opened TokenIndex
  import VoteRuns
  import opened Wrappers

  // ---------- the contract ----------

  /** The contract's current votes. */
  type Ledger = map<Address, nat>

  function VotesAt(v: Ledger, d: Address): nat {
    if d in v then v[d] else 0
  }

  /** `sub96`, which reverts on an underflow. */
  function Less(a: nat, b: nat): nat {
    if b <= a then a - b else 0
  }

  function Took(v: Ledger, src: Address, amount: nat): Ledger {
    if src == ZERO_ADDRESS then v else v[src := Less(VotesAt(v, src), amount)]
  }

  function Gave(v: Ledger, dst: Address, amount: nat): Ledger {
    if dst == ZERO_ADDRESS then v else v[dst := VotesAt(v, dst) + amount]
  }

  function MoveDelegates(v: Ledger, src: Address, dst: Address, amount: nat): Ledger {
    if src == dst || amount == 0 then v else Gave(Took(v, src, amount), dst, amount)
  }

  function Checkpoint(before: Ledger, after: Ledger, d: Address): seq<Action> {
    if d == ZERO_ADDRESS then [] else [DelegateVotesChanged(d, VotesAt(before, d), VotesAt(after, d))]
  }

  /** The vote events of `_moveDelegates`. */
  function VoteEvents(v: Ledger, src: Address, dst: Address, amount: nat): seq<Action> {
    if src == dst || amount == 0 then []
    else
      var took := Took(v, src, amount);
      Checkpoint(v, took, src) + Checkpoint(took, Gave(took, dst, amount), dst)
  }

  /** The nouns an account owns. */
  function OwnedBy(t: Truth, a: Address): set<NounId> {
    set n | n in t.owner && t.owner[n] == a
  }

  /** A transfer, a burn among them; a mint, which the contract makes in two transfers; a delegation. */
  datatype Transaction =
    | Send(from: Address, to: Address, noun: NounId)
    | Mint(creator: Address, to: Address, noun: NounId)
    | Redelegation(delegator: Address, toDelegate: Address)

  /** What there is: the indexer's store, the truth, and the contract's delegates and votes. */
  datatype World = World(store: Store, truth: Truth, delegations: Delegations, votes: Ledger)

  const START := World(EMPTY_STORE, NO_NOUNS, map[], map[])

  /** The events of a transaction in the order the contract emits them. */
  function Emits(w: World, tx: Transaction): seq<Action> {
    match tx
    case Send(from, to, noun) =>
      VoteEvents(w.votes, Delegates(w.delegations, from), Delegates(w.delegations, to), 1) + [Transfer(from, to, noun)]
    case Mint(creator, to, noun) =>
      VoteEvents(w.votes, ZERO_ADDRESS, Delegates(w.delegations, to), 1)
      + [Transfer(ZERO_ADDRESS, creator, noun), Transfer(creator, to, noun)]
    case Redelegation(delegator, toDelegate) =>
      [DelegateChanged(delegator, Delegates(w.delegations, delegator), toDelegate)]
      + VoteEvents(w.votes, Delegates(w.delegations, delegator), toDelegate, |OwnedBy(w.truth, delegator)|)
  }

  function LedgerAfter(w: World, tx: Transaction): Ledger {
    match tx
    case Send(from, to, _) => MoveDelegates(w.votes, Delegates(w.delegations, from), Delegates(w.delegations, to), 1)
    case Mint(_, to, _) => MoveDelegates(w.votes, ZERO_ADDRESS, Delegates(w.delegations, to), 1)
    case Redelegation(delegator, toDelegate) =>
      MoveDelegates(w.votes, Delegates(w.delegations, delegator), toDelegate, |OwnedBy(w.truth, delegator)|)
  }

  function Handle(w: World, action: Action): World {
    var e := Event(0, action);
    w.(store := Step(w.store, e).GetOr(w.store), truth := TruthStep(w.truth, action), delegations := ContractStep(w.delegations, action))
  }

  function HandleAll(w: World, actions: seq<Action>): World {
    if actions == [] then w else Handle(HandleAll(w, actions[..|actions| - 1]), actions[|actions| - 1])
  }

  function After(w: World, tx: Transaction): World {
    HandleAll(w, Emits(w, tx)).(votes := LedgerAfter(w, tx))
  }

  function AfterAll(w: World, txs: seq<Transaction>): World {
    if txs == [] then w else After(AfterAll(w, txs[..|txs| - 1]), txs[|txs| - 1])
  }

  /** An account may get its first noun when it is its own delegate in the contract. */
  predicate MayReceive(w: World, a: Address) {
    a in w.truth.delegate || Delegates(w.delegations, a) == a
  }

  /** A noun goes from its owner to another; a new one by way of a creator who is not its receiver; a holder delegates to another. */
  predicate TameTransaction(w: World, tx: Transaction) {
    match tx
    case Send(from, to, noun) => from != ZERO_ADDRESS && w.truth.Owns(from, noun) && from != to && MayReceive(w, to)
    case Mint(creator, to, noun) =>
      noun !in w.truth.owner && creator != ZERO_ADDRESS && to != ZERO_ADDRESS && creator != to && MayReceive(w, creator) && MayReceive(w, to)
    case Redelegation(delegator, toDelegate) =>
      delegator != ZERO_ADDRESS && delegator in w.truth.delegate && toDelegate != ZERO_ADDRESS &&
      toDelegate != Delegates(w.delegations, delegator)
  }

  predicate AllTame(w: World, txs: seq<Transaction>) {
    txs == [] || (AllTame(w, txs[..|txs| - 1]) && TameTransaction(AfterAll(w, txs[..|txs| - 1]), txs[|txs| - 1]))
  }

  // ---------- what holds between transactions ----------

  /** The index is right, the recorded delegates are the contract's, and so are the recorded votes. */
  ghost predicate InStep(w: World) {
    && Sound(w.store, w.truth) && Follows(w.truth, w.delegations) && ZERO_ADDRESS !in w.delegations
    && forall d: Address :: d != ZERO_ADDRESS ==> VotesOf(w.store.delegates, d) == VotesAt(w.votes, d)
  }

  /** A delegate's votes are the nouns it represents. */
  ghost predicate VotesAreNouns(s: Store, v: Ledger) {
    forall d: Address :: d != ZERO_ADDRESS ==> VotesAt(v, d) == |RepresentedBy(s, d)|
  }

  lemma VotesOfIs(s: Store, d: Address)
    ensures VotesOf(s.delegates, d) == DelegateOf(s, d).delegatedVotes
  {
  }

  lemma {:induction false} HandleAppend(w: World, a: seq<Action>, b: seq<Action>)
    ensures HandleAll(w, a + b) == HandleAll(HandleAll(w, a), b)
  {
    if b == [] {
      assert a + b == a;
    } else {
      HandleAppend(w, a, b[..|b| - 1]);
      assert (a + b)[..|a + b| - 1] == a + b[..|b| - 1];
    }
  }

  lemma {:induction false} LedgerApart(w: World, actions: seq<Action>, v: Ledger)
    ensures HandleAll(w.(votes := v), actions) == HandleAll(w, actions).(votes := v)
    ensures HandleAll(w, actions).votes == w.votes
  {
    if actions != [] {
      LedgerApart(w, actions[..|actions| - 1], v);
    }
  }

  lemma HandleOne(w: World, action: Action)
    ensures HandleAll(w, [action]) == Handle(w, action)
  {
    assert [action][..0] == [];
  }

  /** What vote events leave alone. */
  ghost predicate ListsSame(w: World, after: World) {
    after.truth == w.truth && after.delegations == w.delegations && TokensSame(w.store, after.store)
  }

  // ---------- vote events ----------

  lemma RecordedAfter(s: Store, d: Address, previous: nat, next: nat, x: Address)
    ensures VotesOf(AfterVotesChanged(s, d, previous, next).delegates, x) == if x == d then next else VotesOf(s.delegates, x)
  {
    VotesChangedDelegates(s, d, previous, next);
  }

  lemma ChangeKeeps(w: World, d: Address, next: nat)
    requires InStep(w) && d != ZERO_ADDRESS && (VotesAt(w.votes, d) > 0 || next > 0)
    ensures var after := Handle(w, DelegateVotesChanged(d, VotesAt(w.votes, d), next)).(votes := w.votes[d := next]);
            InStep(after) && ListsSame(w, after)
  {
    var previous := VotesAt(w.votes, d);
    var e := Event(0, DelegateVotesChanged(d, previous, next));
    assert WellFormedVotesChanged(w.store, d, previous, next);
    StepKeeps(w.store, w.truth, e);
    VotesChangedLeaves(w.store, d, previous, next);
    forall x: Address
      ensures VotesOf(AfterVotesChanged(w.store, d, previous, next).delegates, x) == if x == d then next else VotesOf(w.store.delegates, x)
    {
      RecordedAfter(w.store, d, previous, next, x);
    }
  }

  lemma CheckpointKeeps(w: World, after: Ledger, d: Address)
    requires InStep(w)
    requires d != ZERO_ADDRESS ==> after == w.votes[d := VotesAt(after, d)] && (VotesAt(w.votes, d) > 0 || VotesAt(after, d) > 0)
    requires d == ZERO_ADDRESS ==> after == w.votes
    ensures var w' := HandleAll(w, Checkpoint(w.votes, after, d)).(votes := after);
            InStep(w') && ListsSame(w, w')
  {
    if d != ZERO_ADDRESS {
      HandleOne(w, DelegateVotesChanged(d, VotesAt(w.votes, d), VotesAt(after, d)));
      ChangeKeeps(w, d, VotesAt(after, d));
    }
  }

  lemma ListsTrans(w: World, mid: World, after: World)
    requires ListsSame(w, mid) && ListsSame(mid, after)
    ensures ListsSame(w, after)
  {
    TokensTrans(w.store, mid.store, after.store);
  }

  /** The events of one move of votes keep everything in step, as long as the contract's subtraction does not underflow. */
  lemma MoveKeeps(w: World, src: Address, dst: Address, amount: nat)
    requires InStep(w) && (src != ZERO_ADDRESS ==> VotesAt(w.votes, src) >= amount)
    ensures var after := HandleAll(w, VoteEvents(w.votes, src, dst, amount)).(votes := MoveDelegates(w.votes, src, dst, amount));
            InStep(after) && ListsSame(w, after)
  {
    if src != dst && amount > 0 {
      var took := Took(w.votes, src, amount);
      var gave := Gave(took, dst, amount);
      var a, b := Checkpoint(w.votes, took, src), Checkpoint(took, gave, dst);
      CheckpointKeeps(w, took, src);
      var mid := HandleAll(w, a).(votes := took);
      CheckpointKeeps(mid, gave, dst);
      HandleAppend(w, a, b);
      LedgerApart(HandleAll(w, a), b, took);
      ListsTrans(w, mid, HandleAll(mid, b).(votes := gave));
    }
  }

  /** How a move of votes changes the ledger. */
  lemma Moved(v: Ledger, src: Address, dst: Address, amount: nat, d: Address)
    requires d != ZERO_ADDRESS && (src != ZERO_ADDRESS ==> VotesAt(v, src) >= amount)
    ensures VotesAt(MoveDelegates(v, src, dst, amount), d) ==
            VotesAt(v, d) - (if d == src then amount else 0) + (if d == dst then amount else 0)
  {
  }

  /** So many nouns have gone from one delegate's list to another's. */
  ghost predicate Shifted(before: Store, after: Store, src: Address, dst: Address, amount: nat) {
    forall d: Address :: d != ZERO_ADDRESS ==>
      |RepresentedBy(after, d)| == |RepresentedBy(before, d)| - (if d == src then amount else 0) + (if d == dst then amount else 0)
  }

  /** When the votes move as the nouns do, they stay their number. */
  lemma VotesShift(v: Ledger, before: Store, after: Store, src: Address, dst: Address, amount: nat)
    requires VotesAreNouns(before, v) && Shifted(before, after, src, dst, amount)
    requires src != ZERO_ADDRESS ==> VotesAt(v, src) >= amount
    ensures VotesAreNouns(after, MoveDelegates(v, src, dst, amount))
  {
    forall d: Address | d != ZERO_ADDRESS
      ensures VotesAt(MoveDelegates(v, src, dst, amount), d) == |RepresentedBy(after, d)|
    {
      Moved(v, src, dst, amount, d);
    }
  }

  // ---------- token events ----------

  lemma TokenKeeps(w: World, action: Action)
    requires InStep(w) && OfTokens(action) && Emitted(w.truth, w.delegations, action) && Tame(w.truth, w.delegations, action)
    ensures InStep(Handle(w, action))
  {
    EventExact(w.store, w.truth, w.delegations, Event(0, action));
    var after := Handle(w, action);
    match action {
      case Transfer(from, to, noun) => TransferLeaves(w.store, from, to, noun);
      case DelegateChanged(delegator, fromDelegate, toDelegate) => DelegationLeaves(w.store, delegator, fromDelegate, toDelegate);
    }
    forall d: Address | d != ZERO_ADDRESS
      ensures VotesOf(after.store.delegates, d) == VotesAt(after.votes, d)
    {
      VotesOfIs(w.store, d);
      VotesOfIs(after.store, d);
      assert DelegateOf(after.store, d).delegatedVotes == DelegateOf(w.store, d).delegatedVotes;
    }
  }

  /** The delegate whose list a noun leaves, or joins, is the contract's. */
  lemma ListOf(s: Store, t: Truth, c: Delegations, a: Address)
    requires Right(s, t) && Follows(t, c)
    ensures a in t.delegate ==> AccountOf(s, a).delegate == Some(Delegates(c, a))
    ensures a !in t.delegate ==> AccountOf(s, a).delegate == None
  {
    Look(s, t, a);
  }

  lemma OwnerHolds(s: Store, t: Truth, a: Address, n: NounId)
    requires Right(s, t) && t.Owns(a, n)
    ensures a in t.delegate && n in RepresentedBy(s, t.delegate[a])
  {
    Look(s, t, a);
    assert n in NounsOf(s, a) && t.Represents(t.delegate[a], n);
    assert RepresentsExactly(RepresentedBy(s, t.delegate[a]), t, t.delegate[a]);
  }

  /** A transfer shortens the list of the sender's delegate by one and lengthens that of the receiver's. */
  lemma TransferLengths(s: Store, t: Truth, c: Delegations, from: Address, to: Address, n: NounId, d: Address)
    requires Right(s, t) && Follows(t, c) && (from == ZERO_ADDRESS || t.Owns(from, n))
    requires to in t.delegate || Delegates(c, to) == to
    ensures |RepresentedBy(AfterTransfer(s, from, to, n), d)| ==
            |RepresentedBy(s, d)| - (if from != ZERO_ADDRESS && d == Delegates(c, from) then 1 else 0) + (if d == Delegates(c, to) then 1 else 0)
    ensures from != ZERO_ADDRESS ==> |RepresentedBy(s, Delegates(c, from))| >= 1
  {
    TransferLists(s, from, to, n, d);
    ListOf(s, t, c, to);
    if from != ZERO_ADDRESS {
      OwnerHolds(s, t, from, n);
      ListOf(s, t, c, from);
      assert RepresentsExactly(RepresentedBy(s, d), t, d);
      WithoutOne(RepresentedBy(s, d), n);
    }
  }

  // ---------- lists and sets ----------

  function SetOf(s: seq<NounId>): set<NounId> {
    set n | n in s
  }

  lemma {:induction false} DistinctSize(s: seq<NounId>)
    requires Distinct(s)
    ensures |SetOf(s)| == |s|
  {
    if s == [] {
      assert SetOf(s) == {};
    } else {
      var init, last := s[..|s| - 1], s[|s| - 1];
      DistinctSize(init);
      assert s == init + [last];
      assert SetOf(s) == SetOf(init) + {last};
    }
  }

  lemma WithoutLength(s: seq<NounId>, gone: seq<NounId>)
    requires Distinct(s) && Distinct(gone) && forall n <- gone :: n in s
    ensures |Without(s, gone)| == |s| - |gone|
  {
    forall n
      ensures n in SetOf(Without(s, gone)) <==> n in SetOf(s) - SetOf(gone)
    {
      WithoutHas(s, gone, n);
    }
    assert SetOf(Without(s, gone)) == SetOf(s) - SetOf(gone);
    assert SetOf(gone) <= SetOf(s);
    WithoutDistinct(s, gone);
    DistinctSize(Without(s, gone));
    DistinctSize(s);
    DistinctSize(gone);
  }

  lemma BalanceIs(s: Store, t: Truth, a: Address)
    requires Right(s, t)
    ensures |OwnedBy(t, a)| == |NounsOf(s, a)|
  {
    Look(s, t, a);
    assert forall n :: n in OwnedBy(t, a) <==> t.Owns(a, n);
    assert OwnedBy(t, a) == SetOf(NounsOf(s, a));
    DistinctSize(NounsOf(s, a));
  }

  /** A delegation moves all the delegator's nouns from one list to the other. */
  lemma DelegationLengths(s: Store, t: Truth, c: Delegations, a: Address, next: Address, d: Address)
    requires Right(s, t) && Follows(t, c) && a in t.delegate && next != Delegates(c, a)
    ensures |RepresentedBy(AfterDelegateChanged(s, a, Delegates(c, a), next), d)| ==
            |RepresentedBy(s, d)| - (if d == Delegates(c, a) then |OwnedBy(t, a)| else 0) + (if d == next then |OwnedBy(t, a)| else 0)
    ensures |RepresentedBy(s, Delegates(c, a))| >= |OwnedBy(t, a)| > 0
  {
    var previous := Delegates(c, a);
    DelegationLists(s, a, previous, next, d);
    BalanceIs(s, t, a);
    Look(s, t, a);
    assert RepresentsExactly(RepresentedBy(s, previous), t, previous);
    forall n | n in NounsOf(s, a)
      ensures n in RepresentedBy(s, previous)
    {
      assert t.Owns(a, n) && t.Represents(previous, n);
    }
    WithoutLength(RepresentedBy(s, previous), NounsOf(s, a));
  }

  // ---------- transactions ----------

  lemma SendKeeps(w: World, from: Address, to: Address, noun: NounId)
    requires InStep(w) && VotesAreNouns(w.store, w.votes) && TameTransaction(w, Send(from, to, noun))
    ensures InStep(After(w, Send(from, to, noun))) && VotesAreNouns(After(w, Send(from, to, noun)).store, LedgerAfter(w, Send(from, to, noun)))
  {
    var src, dst := Delegates(w.delegations, from), Delegates(w.delegations, to);
    var v := MoveDelegates(w.votes, src, dst, 1);
    var events, action := VoteEvents(w.votes, src, dst, 1), Transfer(from, to, noun);
    TransferLengths(w.store, w.truth, w.delegations, from, to, noun, src);
    MoveKeeps(w, src, dst, 1);
    var mid := HandleAll(w, events).(votes := v);
    TokenKeeps(mid, action);
    HandleAppend(w, events, [action]);
    HandleOne(HandleAll(w, events), action);
    assert After(w, Send(from, to, noun)) == Handle(mid, action);
    forall d: Address | d != ZERO_ADDRESS
      ensures |RepresentedBy(Handle(mid, action).store, d)| ==
              |RepresentedBy(w.store, d)| - (if d == src then 1 else 0) + (if d == dst then 1 else 0)
    {
      TransferLengths(mid.store, mid.truth, mid.delegations, from, to, noun, d);
    }
    VotesShift(w.votes, w.store, Handle(mid, action).store, src, dst, 1);
  }

  /** The two transfers of a mint: in the end the noun is in the list of the receiver's delegate, and in no other. */
  lemma MintTransfers(w: World, creator: Address, to: Address, noun: NounId)
    requires InStep(w) && TameTransaction(w, Mint(creator, to, noun))
    ensures var after := Handle(Handle(w, Transfer(ZERO_ADDRESS, creator, noun)), Transfer(creator, to, noun));
            InStep(after) &&
            forall d: Address :: |RepresentedBy(after.store, d)| ==
                                 |RepresentedBy(w.store, d)| + (if d == Delegates(w.delegations, to) then 1 else 0)
  {
    var first, second := Transfer(ZERO_ADDRESS, creator, noun), Transfer(creator, to, noun);
    var mid := Handle(w, first);
    TokenKeeps(w, first);
    assert mid.truth.Owns(creator, noun) && (to in w.truth.delegate ==> to in mid.truth.delegate);
    TokenKeeps(mid, second);
    forall d: Address
      ensures |RepresentedBy(Handle(mid, second).store, d)| ==
              |RepresentedBy(w.store, d)| + (if d == Delegates(w.delegations, to) then 1 else 0)
    {
      TransferLengths(w.store, w.truth, w.delegations, ZERO_ADDRESS, creator, noun, d);
      TransferLengths(mid.store, mid.truth, mid.delegations, creator, to, noun, d);
    }
  }

  lemma HandleTwo(w: World, a: Action, b: Action)
    ensures HandleAll(w, [a, b]) == Handle(Handle(w, a), b)
  {
    assert [a] + [b] == [a, b];
    HandleAppend(w, [a], [b]);
    HandleOne(w, a);
    HandleOne(Handle(w, a), b);
  }

  lemma MintKeeps(w: World, creator: Address, to: Address, noun: NounId)
    requires InStep(w) && VotesAreNouns(w.store, w.votes) && TameTransaction(w, Mint(creator, to, noun))
    ensures InStep(After(w, Mint(creator, to, noun)))
    ensures VotesAreNouns(After(w, Mint(creator, to, noun)).store, LedgerAfter(w, Mint(creator, to, noun)))
  {
    var dst := Delegates(w.delegations, to);
    var v := MoveDelegates(w.votes, ZERO_ADDRESS, dst, 1);
    var events := VoteEvents(w.votes, ZERO_ADDRESS, dst, 1);
    var first, second := Transfer(ZERO_ADDRESS, creator, noun), Transfer(creator, to, noun);
    MoveKeeps(w, ZERO_ADDRESS, dst, 1);
    var mid := HandleAll(w, events).(votes := v);
    MintTransfers(mid, creator, to, noun);
    HandleAppend(w, events, [first, second]);
    HandleTwo(HandleAll(w, events), first, second);
    assert After(w, Mint(creator, to, noun)) == Handle(Handle(mid, first), second);
    VotesShift(w.votes, w.store, Handle(Handle(mid, first), second).store, ZERO_ADDRESS, dst, 1);
  }

  lemma DelegationShifts(w: World, a: Address, next: Address)
    requires InStep(w) && TameTransaction(w, Redelegation(a, next))
    ensures var src, amount := Delegates(w.delegations, a), |OwnedBy(w.truth, a)|;
            Shifted(w.store, Handle(w, DelegateChanged(a, src, next)).store, src, next, amount)
  {
    forall d: Address {
      DelegationLengths(w.store, w.truth, w.delegations, a, next, d);
    }
  }

  lemma DelegateKeeps(w: World, a: Address, next: Address)
    requires InStep(w) && VotesAreNouns(w.store, w.votes) && TameTransaction(w, Redelegation(a, next))
    ensures InStep(After(w, Redelegation(a, next))) && VotesAreNouns(After(w, Redelegation(a, next)).store, LedgerAfter(w, Redelegation(a, next)))
  {
    var src, amount := Delegates(w.delegations, a), |OwnedBy(w.truth, a)|;
    var v, events := MoveDelegates(w.votes, src, next, amount), VoteEvents(w.votes, src, next, amount);
    var action := DelegateChanged(a, src, next);
    DelegationLengths(w.store, w.truth, w.delegations, a, next, src);
    TokenKeeps(w, action);
    var mid := Handle(w, action);
    MoveKeeps(mid, src, next, amount);
    HandleAppend(w, [action], events);
    HandleOne(w, action);
    assert After(w, Redelegation(a, next)) == HandleAll(mid, events).(votes := v);
    DelegationShifts(w, a, next);
    VotesShift(w.votes, w.store, HandleAll(mid, events).store, src, next, amount);
  }

  lemma TransactionKeeps(w: World, tx: Transaction)
    requires InStep(w) && VotesAreNouns(w.store, w.votes) && TameTransaction(w, tx)
    ensures InStep(After(w, tx)) && VotesAreNouns(After(w, tx).store, After(w, tx).votes)
  {
    match tx {
      case Send(from, to, noun) => SendKeeps(w, from, to, noun);
      case Mint(creator, to, noun) => MintKeeps(w, creator, to, noun);
      case Redelegation(delegator, toDelegate) => DelegateKeeps(w, delegator, toDelegate);
    }
  }

  lemma {:induction false} TransactionsKeep(txs: seq<Transaction>)
    requires AllTame(START, txs)
    ensures InStep(AfterAll(START, txs)) && VotesAreNouns(AfterAll(START, txs).store, AfterAll(START, txs).votes)
  {
    if txs == [] {
      EmptyIsSound();
    } else {
      TransactionsKeep(txs[..|txs| - 1]);
      TransactionKeeps(AfterAll(START, txs[..|txs| - 1]), txs[|txs| - 1]);
    }
  }

  /** After every tame run of transactions a delegate's recorded votes are the nouns in its list. */
  lemma RecordedVotesAreNouns(txs: seq<Transaction>, d: Address)
    requires AllTame(START, txs) && d != ZERO_ADDRESS
    ensures var w := AfterAll(START, txs);
            Sound(w.store, w.truth) && DelegateOf(w.store, d).delegatedVotes == |RepresentedBy(w.store, d)| == VotesAt(w.votes, d)
  {
    TransactionsKeep(txs);
    VotesOfIs(AfterAll(START, txs).store, d);
  }

  // ---------- as runs of events ----------

  function AllEmitted(w: World, txs: seq<Transaction>): seq<Event> {
    if txs == [] then []
    else
      var init := txs[..|txs| - 1];
      AllEmitted(w, init) + AsEvents(Emits(AfterAll(w, init), txs[|txs| - 1]))
  }

  function AsEvents(actions: seq<Action>): (es: seq<Event>)
    ensures |es| == |actions|
  {
    seq(|actions|, i requires 0 <= i < |actions| => Event(0, actions[i]))
  }

  predicate NeverAborts(action: Action) {
    OfTokens(action) || action.DelegateVotesChanged?
  }

  lemma {:induction false} HandledRun(w: World, actions: seq<Action>)
    requires forall a <- actions :: NeverAborts(a)
    ensures Run(w.store, AsEvents(actions)) == Some(HandleAll(w, actions).store)
  {
    if actions != [] {
      var init, last := actions[..|actions| - 1], actions[|actions| - 1];
      HandledRun(w, init);
      assert AsEvents(actions)[..|actions| - 1] == AsEvents(init);
      assert last in actions && NeverAborts(last);
    }
  }

  lemma EmitsNeverAbort(w: World, tx: Transaction)
    ensures forall a <- Emits(w, tx) :: NeverAborts(a)
  {
  }

  /** The world after some transactions has the store of the run of their events. */
  lemma {:induction false} TransactionsAreRuns(txs: seq<Transaction>)
    ensures Run(EMPTY_STORE, AllEmitted(START, txs)) == Some(AfterAll(START, txs).store)
  {
    if txs != [] {
      var init, last := txs[..|txs| - 1], txs[|txs| - 1];
      var w := AfterAll(START, init);
      TransactionsAreRuns(init);
      EmitsNeverAbort(w, last);
      HandledRun(w, Emits(w, last));
      VoteRuns.RunAppend(EMPTY_STORE, AllEmitted(START, init), AsEvents(Emits(w, last)));
    }
  }
}
