/**
 What `handleTransfer` and `handleDelegateChanged` do to the store, and the ground truth that the
 redundant lists, balances and totals must agree with: who owns each noun, and whom each holder
 delegates to.
 */
module TokenIndex {
  import opened Entities
  import opened Lists
  import opened Wrappers

  // ---------- the handlers ----------

  /** The sender's account after it lost a noun. */
  function Debited(a: Account, id: NounId): Account {
    a.(tokenBalanceRaw := a.tokenBalanceRaw - 1,
       tokenBalance := a.tokenBalanceRaw - 1,
       nouns := Without(a.nouns, [id]),
       delegate := if a.tokenBalanceRaw - 1 == 0 && a.tokenBalanceRaw > 0 then None else a.delegate)
  }

  /** The receiver's account after it got a noun. */
  function Credited(a: Account, self: Address, id: NounId): Account {
    a.(tokenBalanceRaw := a.tokenBalanceRaw + 1,
       tokenBalance := a.tokenBalanceRaw + 1,
       totalTokensHeldRaw := a.totalTokensHeldRaw + 1,
       totalTokensHeld := a.totalTokensHeldRaw + 1,
       nouns := a.nouns + [id],
       delegate := if a.tokenBalanceRaw + 1 > 0 && a.tokenBalanceRaw == 0 then Some(self) else a.delegate)
  }

  function StopRepresenting(s: Store, delegate: Address, gone: seq<NounId>): Store {
    var d := EnsureDelegate(s, delegate);
    SaveDelegate(d, delegate, d.delegates[delegate].(nounsRepresented := Without(d.delegates[delegate].nounsRepresented, gone)))
  }

  function StartRepresenting(s: Store, delegate: Address, id: NounId): Store {
    var d := EnsureDelegate(s, delegate);
    SaveDelegate(d, delegate, d.delegates[delegate].(nounsRepresented := d.delegates[delegate].nounsRepresented + [id]))
  }

  /** What is left of the governance copy, and the store, after the sender's side. */
  function SenderSide(s: Store, from: Address, id: NounId): (Store, Governance) {
    var f, g := AccountOf(s, from), GovernanceOf(s);
    if from == ZERO_ADDRESS then
      var g1 := g.(totalTokenHolders := g.totalTokenHolders + 1);
      (SaveGovernance(s, g1), g1)
    else
      var s1 := if f.delegate.Some? then StopRepresenting(s, f.delegate.value, [id]) else s;
      var emptied := f.tokenBalanceRaw - 1 == 0 && f.tokenBalanceRaw > 0;
      var g1 := if emptied then g.(currentTokenHolders := g.currentTokenHolders - 1) else g;
      var s2 := if emptied then SaveGovernance(s1, g1) else s1;
      (SaveAccount(s2, from, Debited(f, id)), g1)
  }

  function BurnSide(s: Store, g: Governance, to: Address): (Store, Governance) {
    var g1 := g.(totalTokenHolders := g.totalTokenHolders - 1);
    if to == ZERO_ADDRESS then (SaveGovernance(s, g1), g1) else (s, g)
  }

  /** `t` is the receiver's account as it was loaded before the sender's side. */
  function CreditSide(s: Store, g: Governance, t: Account, to: Address, id: NounId): Store {
    var first := t.tokenBalanceRaw + 1 > 0 && t.tokenBalanceRaw == 0;
    var s1 := if first then SaveGovernance(s, g.(currentTokenHolders := g.currentTokenHolders + 1)) else s;
    SaveAccount(s1.(nouns := s1.nouns[id := to]), to, Credited(t, to, id))
  }

  function ReceiverSide(s: Store, g: Governance, t: Account, to: Address, id: NounId): Store {
    var (s1, g1) := BurnSide(s, g, to);
    CreditSide(StartRepresenting(s1, t.delegate.GetOr(to), id), g1, t, to, id)
  }

  function AfterTransfer(s: Store, from: Address, to: Address, id: NounId): Store {
    var s0 := EnsureAccount(EnsureAccount(s, from), to);
    var (s1, g) := SenderSide(s0, from, id);
    ReceiverSide(s1, g, s0.accounts[to], to, id)
  }

  /** Both delegates are loaded before either is saved. */
  function Redelegate(s: Store, delegator: Address, fromDelegate: Address, toDelegate: Address): Store
    requires delegator in s.accounts && fromDelegate in s.delegates && toDelegate in s.delegates
  {
    var holder, previous, next := s.accounts[delegator], s.delegates[fromDelegate], s.delegates[toDelegate];
    var s1 := SaveAccount(s, delegator, holder.(delegate := Some(toDelegate)));
    var s2 := SaveDelegate(s1, fromDelegate,
                           previous.(tokenHoldersRepresentedAmount := previous.tokenHoldersRepresentedAmount - 1,
                                     nounsRepresented := Without(previous.nounsRepresented, holder.nouns)));
    SaveDelegate(s2, toDelegate,
                 next.(tokenHoldersRepresentedAmount := next.tokenHoldersRepresentedAmount + 1,
                       nounsRepresented := next.nounsRepresented + holder.nouns))
  }

  function AfterDelegateChanged(s: Store, delegator: Address, fromDelegate: Address, toDelegate: Address): Store {
    Redelegate(EnsureDelegate(EnsureDelegate(EnsureAccount(s, delegator), fromDelegate), toDelegate),
               delegator, fromDelegate, toDelegate)
  }

  // ---------- the ground truth ----------

  /** Who owns each noun ever minted (the zero address owns the burned ones), and whom each holder delegates to. */
  datatype Truth = Truth(owner: map<NounId, Address>, delegate: map<Address, Address>) {
    predicate Owns(a: Address, n: NounId) {
      n in owner && owner[n] == a
    }

    predicate Holds(a: Address) {
      exists n :: n in owner && Owns(a, n)
    }

    predicate Represents(d: Address, n: NounId) {
      n in owner && owner[n] in delegate && delegate[owner[n]] == d
    }

    /** Minted and not burned. */
    function Live(): set<NounId> {
      set n | n in owner && owner[n] != ZERO_ADDRESS
    }
  }

  const NO_NOUNS := Truth(map[], map[])

  /** A holder that has no noun left delegates to nobody; a new holder delegates to itself. */
  function TruthTransfer(t: Truth, from: Address, to: Address, id: NounId): Truth {
    var owned := t.(owner := t.owner[id := to]);
    var left := if from == ZERO_ADDRESS || owned.Holds(from) then t.delegate else t.delegate - {from};
    owned.(delegate := if to in left then left else left[to := to])
  }

  function TruthDelegateChanged(t: Truth, delegator: Address, toDelegate: Address): Truth {
    t.(delegate := t.delegate[delegator := toDelegate])
  }

  /** EIP-721: a mint is of a new noun; any other transfer is from the owner, and here to somebody else. */
  predicate WellFormedTransfer(t: Truth, from: Address, to: Address, id: NounId) {
    if from == ZERO_ADDRESS then id !in t.owner else from != to && t.Owns(from, id)
  }

  /** The delegator holds a noun and delegates to `fromDelegate`, and the change is one. */
  predicate WellFormedDelegateChanged(t: Truth, delegator: Address, fromDelegate: Address, toDelegate: Address) {
    delegator in t.delegate && t.delegate[delegator] == fromDelegate && fromDelegate != toDelegate
  }

  // ---------- the index ----------

  ghost predicate HoldsExactly(list: seq<NounId>, t: Truth, a: Address) {
    Distinct(list) && forall n :: n in list <==> t.Owns(a, n)
  }

  ghost predicate RepresentsExactly(list: seq<NounId>, t: Truth, d: Address) {
    Distinct(list) && forall n :: n in list <==> t.Represents(d, n)
  }

  function NounsOf(s: Store, a: Address): seq<NounId> {
    AccountOf(s, a).nouns
  }

  function RepresentedBy(s: Store, d: Address): seq<NounId> {
    DelegateOf(s, d).nounsRepresented
  }

  function RecordedDelegate(t: Truth, a: Address): Option<Address> {
    if a in t.delegate then Some(t.delegate[a]) else None
  }

  /** An account's record is that of what it owns. */
  ghost predicate AccountRight(s: Store, t: Truth, a: Address) {
    var account := AccountOf(s, a);
    && HoldsExactly(account.nouns, t, a)
    && account.tokenBalanceRaw == account.tokenBalance == |account.nouns|
    && account.delegate == RecordedDelegate(t, a)
    && (a in t.delegate <==> account.nouns != [])
  }

  ghost predicate AccountsRight(s: Store, t: Truth) {
    forall a: Address :: AccountRight(s, t, a)
  }

  ghost predicate DelegatesRight(s: Store, t: Truth) {
    forall d: Address :: RepresentsExactly(RepresentedBy(s, d), t, d)
  }

  ghost predicate TotalsRight(s: Store, t: Truth) {
    && GovernanceOf(s).currentTokenHolders == |t.delegate.Keys|
    && GovernanceOf(s).totalTokenHolders == |t.Live()|
    && s.nouns == t.owner
  }

  ghost predicate Right(s: Store, t: Truth) {
    AccountsRight(s, t) && DelegatesRight(s, t) && TotalsRight(s, t)
  }

  // ---------- transfers ----------

  /** What a step on representation lists leaves alone. */
  ghost predicate ListsOnly(s: Store, after: Store) {
    && after.accounts == s.accounts && after.nouns == s.nouns
    && GovernanceOf(after).totalTokenHolders == GovernanceOf(s).totalTokenHolders
    && GovernanceOf(after).currentTokenHolders == GovernanceOf(s).currentTokenHolders
  }

  lemma EnsureDelegateAdds(s: Store, id: Address, d: Address)
    ensures DelegateOf(EnsureDelegate(s, id), d) == DelegateOf(s, d)
    ensures ListsOnly(s, EnsureDelegate(s, id))
  {
  }

  lemma StopRepresentingAt(s: Store, delegate: Address, gone: seq<NounId>, d: Address)
    ensures RepresentedBy(StopRepresenting(s, delegate, gone), d) ==
            if d == delegate then Without(RepresentedBy(s, d), gone) else RepresentedBy(s, d)
    ensures ListsOnly(s, StopRepresenting(s, delegate, gone))
  {
    EnsureDelegateAdds(s, delegate, d);
  }

  lemma StartRepresentingAt(s: Store, delegate: Address, id: NounId, d: Address)
    ensures RepresentedBy(StartRepresenting(s, delegate, id), d) ==
            if d == delegate then RepresentedBy(s, d) + [id] else RepresentedBy(s, d)
    ensures ListsOnly(s, StartRepresenting(s, delegate, id))
  {
    EnsureDelegateAdds(s, delegate, d);
  }

  lemma SenderLists(s: Store, from: Address, id: NounId, d: Address)
    ensures RepresentedBy(SenderSide(s, from, id).0, d) ==
            if from != ZERO_ADDRESS && AccountOf(s, from).delegate == Some(d) then Without(RepresentedBy(s, d), [id])
            else RepresentedBy(s, d)
  {
    if AccountOf(s, from).delegate.Some? {
      StopRepresentingAt(s, AccountOf(s, from).delegate.value, [id], d);
    }
  }

  lemma ReceiverLists(s: Store, g: Governance, t: Account, to: Address, id: NounId, d: Address)
    ensures RepresentedBy(ReceiverSide(s, g, t, to, id), d) ==
            if d == t.delegate.GetOr(to) then RepresentedBy(s, d) + [id] else RepresentedBy(s, d)
  {
    StartRepresentingAt(BurnSide(s, g, to).0, t.delegate.GetOr(to), id, d);
  }

  lemma SenderAccounts(s: Store, from: Address, id: NounId)
    ensures SenderSide(s, from, id).0.accounts ==
            if from == ZERO_ADDRESS then s.accounts else s.accounts[from := Debited(AccountOf(s, from), id)]
    ensures SenderSide(s, from, id).0.nouns == s.nouns
  {
    if AccountOf(s, from).delegate.Some? {
      StopRepresentingAt(s, AccountOf(s, from).delegate.value, [id], from);
    }
  }

  lemma ReceiverAccounts(s: Store, g: Governance, t: Account, to: Address, id: NounId)
    ensures ReceiverSide(s, g, t, to, id).accounts == s.accounts[to := Credited(t, to, id)]
    ensures ReceiverSide(s, g, t, to, id).nouns == s.nouns[id := to]
  {
    StartRepresentingAt(BurnSide(s, g, to).0, t.delegate.GetOr(to), id, to);
  }

  /** The governance copy the handler carries agrees with the stored one on the holder counts. */
  lemma SenderTotals(s: Store, from: Address, id: NounId)
    ensures var (s1, g1) := SenderSide(s, from, id);
            var g := GovernanceOf(s);
            && GovernanceOf(s1).totalTokenHolders == g1.totalTokenHolders
            && GovernanceOf(s1).currentTokenHolders == g1.currentTokenHolders
            && g1.totalTokenHolders == g.totalTokenHolders + (if from == ZERO_ADDRESS then 1 else 0)
            && g1.currentTokenHolders == g.currentTokenHolders
                                         - (if from != ZERO_ADDRESS && AccountOf(s, from).tokenBalanceRaw == 1 then 1 else 0)
  {
    if AccountOf(s, from).delegate.Some? {
      StopRepresentingAt(s, AccountOf(s, from).delegate.value, [id], from);
    }
  }

  lemma ReceiverTotals(s: Store, g: Governance, t: Account, to: Address, id: NounId)
    requires GovernanceOf(s).totalTokenHolders == g.totalTokenHolders
    requires GovernanceOf(s).currentTokenHolders == g.currentTokenHolders
    ensures var after := GovernanceOf(ReceiverSide(s, g, t, to, id));
            && after.totalTokenHolders == g.totalTokenHolders - (if to == ZERO_ADDRESS then 1 else 0)
            && after.currentTokenHolders == g.currentTokenHolders + (if t.tokenBalanceRaw == 0 then 1 else 0)
  {
    StartRepresentingAt(BurnSide(s, g, to).0, t.delegate.GetOr(to), id, to);
  }

  lemma EnsureAccountAdds(s: Store, id: Address, a: Address)
    ensures var s0 := EnsureAccount(s, id);
            && s0 == s.(accounts := s0.accounts) && id in s0.accounts && AccountOf(s0, a) == AccountOf(s, a)
            && (a in s.accounts ==> a in s0.accounts)
  {
  }

  /** Creating the two accounts changes nothing that is looked up. */
  lemma EnsureAccountsAdds(s: Store, from: Address, to: Address, a: Address)
    ensures var s0 := EnsureAccount(EnsureAccount(s, from), to);
            && s0 == s.(accounts := s0.accounts)
            && to in s0.accounts && from in s0.accounts && AccountOf(s0, a) == AccountOf(s, a)
  {
    EnsureAccountAdds(s, from, a);
    EnsureAccountAdds(EnsureAccount(s, from), to, a);
    EnsureAccountAdds(EnsureAccount(s, from), to, from);
  }

  /** Which accounts a transfer changes, and how. */
  lemma TransferAccounts(s: Store, from: Address, to: Address, id: NounId, a: Address)
    ensures AccountOf(AfterTransfer(s, from, to, id), a) ==
            if a == to then Credited(AccountOf(s, to), to, id)
            else if a == from && from != ZERO_ADDRESS then Debited(AccountOf(s, from), id)
            else AccountOf(s, a)
  {
    var s0 := EnsureAccount(EnsureAccount(s, from), to);
    var (s1, g) := SenderSide(s0, from, id);
    EnsureAccountsAdds(s, from, to, a);
    EnsureAccountsAdds(s, from, to, from);
    EnsureAccountsAdds(s, from, to, to);
    SenderAccounts(s0, from, id);
    ReceiverAccounts(s1, g, s0.accounts[to], to, id);
  }

  /** Which representation lists a transfer changes, and how. */
  lemma TransferLists(s: Store, from: Address, to: Address, id: NounId, d: Address)
    ensures var left := if from != ZERO_ADDRESS && AccountOf(s, from).delegate == Some(d)
                        then Without(RepresentedBy(s, d), [id]) else RepresentedBy(s, d);
            RepresentedBy(AfterTransfer(s, from, to, id), d) ==
            if d == AccountOf(s, to).delegate.GetOr(to) then left + [id] else left
  {
    var s0 := EnsureAccount(EnsureAccount(s, from), to);
    var (s1, g) := SenderSide(s0, from, id);
    EnsureAccountsAdds(s, from, to, from);
    EnsureAccountsAdds(s, from, to, to);
    SenderLists(s0, from, id, d);
    ReceiverLists(s1, g, s0.accounts[to], to, id, d);
  }

  lemma TransferTotals(s: Store, from: Address, to: Address, id: NounId)
    ensures var g, after := GovernanceOf(s), GovernanceOf(AfterTransfer(s, from, to, id));
            var f, t := AccountOf(s, from), AccountOf(s, to);
            && after.totalTokenHolders == g.totalTokenHolders + (if from == ZERO_ADDRESS then 1 else 0)
                                          - (if to == ZERO_ADDRESS then 1 else 0)
            && after.currentTokenHolders == g.currentTokenHolders - (if from != ZERO_ADDRESS && f.tokenBalanceRaw == 1 then 1 else 0)
                                            + (if t.tokenBalanceRaw == 0 then 1 else 0)
    ensures AfterTransfer(s, from, to, id).nouns == s.nouns[id := to]
  {
    var s0 := EnsureAccount(EnsureAccount(s, from), to);
    var (s1, g) := SenderSide(s0, from, id);
    EnsureAccountsAdds(s, from, to, from);
    EnsureAccountsAdds(s, from, to, to);
    SenderAccounts(s0, from, id);
    SenderTotals(s0, from, id);
    ReceiverAccounts(s1, g, s0.accounts[to], to, id);
    ReceiverTotals(s1, g, s0.accounts[to], to, id);
  }

  lemma ListHolds(list: seq<NounId>, t: Truth, a: Address)
    requires HoldsExactly(list, t, a)
    ensures t.Holds(a) <==> list != []
  {
    if list != [] {
      assert list[0] in list;
    }
  }

  lemma Look(s: Store, t: Truth, a: Address)
    requires AccountsRight(s, t)
    ensures AccountRight(s, t, a)
  {
  }

  /** Owning a noun is having it in the list, so a list of several stays a list of some. */
  lemma SenderNouns(s: Store, t: Truth, from: Address, to: Address, id: NounId)
    requires HoldsExactly(NounsOf(s, from), t, from) && from != to && t.Owns(from, id)
    ensures HoldsExactly(Without(NounsOf(s, from), [id]), t.(owner := t.owner[id := to]), from)
    ensures |Without(NounsOf(s, from), [id])| == |NounsOf(s, from)| - 1
  {
    var nouns := NounsOf(s, from);
    WithoutDistinct(nouns, [id]);
    WithoutOne(nouns, id);
    forall n
      ensures n in Without(nouns, [id]) <==> t.(owner := t.owner[id := to]).Owns(from, n)
    {
      WithoutHas(nouns, [id], n);
    }
  }

  lemma SenderRight(s: Store, t: Truth, from: Address, to: Address, id: NounId)
    requires AccountRight(s, t, from) && from != ZERO_ADDRESS && from != to && t.Owns(from, id)
    ensures AccountRight(AfterTransfer(s, from, to, id), TruthTransfer(t, from, to, id), from)
    ensures from in TruthTransfer(t, from, to, id).delegate <==> |NounsOf(s, from)| > 1
  {
    TransferAccounts(s, from, to, id, from);
    SenderNouns(s, t, from, to, id);
    ListHolds(Without(NounsOf(s, from), [id]), t.(owner := t.owner[id := to]), from);
  }

  lemma ReceiverNouns(s: Store, t: Truth, to: Address, id: NounId)
    requires HoldsExactly(NounsOf(s, to), t, to) && !t.Owns(to, id)
    ensures HoldsExactly(NounsOf(s, to) + [id], t.(owner := t.owner[id := to]), to)
  {
    DistinctAppend(NounsOf(s, to), [id]);
  }

  lemma ReceiverRight(s: Store, t: Truth, from: Address, to: Address, id: NounId)
    requires AccountRight(s, t, to) && WellFormedTransfer(t, from, to, id)
    ensures AccountRight(AfterTransfer(s, from, to, id), TruthTransfer(t, from, to, id), to)
  {
    TransferAccounts(s, from, to, id, to);
    ReceiverNouns(s, t, to, id);
  }

  lemma BystanderRight(s: Store, t: Truth, from: Address, to: Address, id: NounId, a: Address)
    requires AccountRight(s, t, a) && WellFormedTransfer(t, from, to, id) && a != to && (a != from || from == ZERO_ADDRESS)
    ensures AccountRight(AfterTransfer(s, from, to, id), TruthTransfer(t, from, to, id), a)
  {
    var t' := TruthTransfer(t, from, to, id);
    TransferAccounts(s, from, to, id, a);
    assert RecordedDelegate(t', a) == RecordedDelegate(t, a);
    assert forall n :: t'.Owns(a, n) <==> t.Owns(a, n);
  }

  /** Whom a noun that is not transferred is represented by does not change. */
  lemma OthersRepresented(s: Store, t: Truth, from: Address, to: Address, id: NounId, d: Address, n: NounId)
    requires AccountsRight(s, t) && WellFormedTransfer(t, from, to, id) && n != id
    ensures TruthTransfer(t, from, to, id).Represents(d, n) <==> t.Represents(d, n)
  {
    if n in t.owner {
      var a := t.owner[n];
      Look(s, t, a);
      assert t.Owns(a, n) && n in NounsOf(s, a);
      if a == from {
        assert t.(owner := t.owner[id := to]).Owns(from, n);
      }
    }
  }

  /** A noun is represented by its owner's delegate. */
  lemma Represented(s: Store, t: Truth, d: Address, n: NounId)
    requires AccountsRight(s, t) && n in t.owner
    ensures t.Represents(d, n) <==> AccountOf(s, t.owner[n]).delegate == Some(d)
  {
    Look(s, t, t.owner[n]);
    assert t.Owns(t.owner[n], n);
  }

  /** The transferred noun goes to the list of the receiver's delegate. */
  lemma TransferredRepresented(s: Store, t: Truth, from: Address, to: Address, id: NounId, d: Address)
    requires AccountsRight(s, t) && WellFormedTransfer(t, from, to, id)
    ensures TruthTransfer(t, from, to, id).Represents(d, id) <==> d == AccountOf(s, to).delegate.GetOr(to)
  {
    Look(s, t, to);
  }

  /** A delegate's list once the sender's side is done: the transferred noun is in nobody's. */
  function ListLeft(s: Store, from: Address, id: NounId, d: Address): seq<NounId> {
    if from != ZERO_ADDRESS && AccountOf(s, from).delegate == Some(d) then Without(RepresentedBy(s, d), [id])
    else RepresentedBy(s, d)
  }

  lemma ListLeftHas(s: Store, t: Truth, from: Address, to: Address, id: NounId, d: Address, n: NounId)
    requires AccountsRight(s, t) && RepresentsExactly(RepresentedBy(s, d), t, d) && WellFormedTransfer(t, from, to, id)
    ensures n in ListLeft(s, from, id, d) <==> n != id && t.Represents(d, n)
    ensures Distinct(ListLeft(s, from, id, d))
  {
    WithoutDistinct(RepresentedBy(s, d), [id]);
    WithoutHas(RepresentedBy(s, d), [id], n);
    if id in t.owner {
      Represented(s, t, d, id);
    }
  }

  lemma TransferListRight(s: Store, t: Truth, from: Address, to: Address, id: NounId, d: Address)
    requires AccountsRight(s, t) && RepresentsExactly(RepresentedBy(s, d), t, d) && WellFormedTransfer(t, from, to, id)
    ensures RepresentsExactly(RepresentedBy(AfterTransfer(s, from, to, id), d), TruthTransfer(t, from, to, id), d)
  {
    var left, after := ListLeft(s, from, id, d), RepresentedBy(AfterTransfer(s, from, to, id), d);
    TransferLists(s, from, to, id, d);
    ListLeftHas(s, t, from, to, id, d, id);
    DistinctAppend(left, [id]);
    TransferredRepresented(s, t, from, to, id, d);
    forall n
      ensures n in after <==> TruthTransfer(t, from, to, id).Represents(d, n)
    {
      ListLeftHas(s, t, from, to, id, d, n);
      if n != id {
        OthersRepresented(s, t, from, to, id, d, n);
      }
    }
  }

  /** The number of nouns that are minted and not burned. */
  lemma TransferLive(t: Truth, from: Address, to: Address, id: NounId)
    requires WellFormedTransfer(t, from, to, id)
    ensures |TruthTransfer(t, from, to, id).Live()| ==
            |t.Live()| + (if from == ZERO_ADDRESS then 1 else 0) - (if to == ZERO_ADDRESS then 1 else 0)
  {
    var after := TruthTransfer(t, from, to, id).Live();
    assert id in t.Live() <==> from != ZERO_ADDRESS;
    if to == ZERO_ADDRESS {
      assert after == t.Live() - {id};
    } else {
      assert after == t.Live() + {id};
    }
  }

  /** Who holds a noun after the transfer. */
  lemma TransferHolderSet(t: Truth, from: Address, to: Address, id: NounId)
    ensures var emptied := from != ZERO_ADDRESS && !t.(owner := t.owner[id := to]).Holds(from);
            TruthTransfer(t, from, to, id).delegate.Keys ==
            (if emptied then t.delegate.Keys - {from} else t.delegate.Keys) + {to}
  {
  }

  /** The number of accounts that hold a noun. */
  lemma TransferHolders(s: Store, t: Truth, from: Address, to: Address, id: NounId)
    requires AccountRight(s, t, from) && AccountRight(s, t, to) && WellFormedTransfer(t, from, to, id)
    ensures |TruthTransfer(t, from, to, id).delegate.Keys| ==
            |t.delegate.Keys| - (if from != ZERO_ADDRESS && AccountOf(s, from).tokenBalanceRaw == 1 then 1 else 0)
            + (if AccountOf(s, to).tokenBalanceRaw == 0 then 1 else 0)
  {
    TransferHolderSet(t, from, to, id);
    if from != ZERO_ADDRESS {
      SenderNouns(s, t, from, to, id);
      ListHolds(Without(NounsOf(s, from), [id]), t.(owner := t.owner[id := to]), from);
    }
  }

  lemma TransferTotalsRight(s: Store, t: Truth, from: Address, to: Address, id: NounId)
    requires AccountsRight(s, t) && TotalsRight(s, t) && WellFormedTransfer(t, from, to, id)
    ensures TotalsRight(AfterTransfer(s, from, to, id), TruthTransfer(t, from, to, id))
  {
    TransferTotals(s, from, to, id);
    TransferLive(t, from, to, id);
    Look(s, t, from);
    Look(s, t, to);
    TransferHolders(s, t, from, to, id);
  }

  lemma TransferKeeps(s: Store, t: Truth, from: Address, to: Address, id: NounId)
    requires Right(s, t) && WellFormedTransfer(t, from, to, id)
    ensures Right(AfterTransfer(s, from, to, id), TruthTransfer(t, from, to, id))
  {
    var s', t' := AfterTransfer(s, from, to, id), TruthTransfer(t, from, to, id);
    forall a: Address
      ensures AccountRight(s', t', a)
    {
      Look(s, t, a);
      if a == to {
        ReceiverRight(s, t, from, to, id);
      } else if a == from && from != ZERO_ADDRESS {
        SenderRight(s, t, from, to, id);
      } else {
        BystanderRight(s, t, from, to, id, a);
      }
    }
    forall d: Address
      ensures RepresentsExactly(RepresentedBy(s', d), t', d)
    {
      TransferListRight(s, t, from, to, id, d);
    }
    TransferTotalsRight(s, t, from, to, id);
  }

  /** An account whose list still has a noun that it does not own. */
  lemma StaleNoun(s: Store, t: Truth, a: Address, n: NounId)
    requires n in NounsOf(s, a) && !t.Owns(a, n)
    ensures !AccountRight(s, t, a)
  {
  }

  lemma TwiceListed(s: Store, t: Truth, from: Address, to: Address, id: NounId)
    requires id in NounsOf(s, to)
    ensures !AccountRight(AfterTransfer(s, from, to, id), TruthTransfer(t, from, to, id), to)
  {
    TransferAccounts(s, from, to, id, to);
    DistinctAppend(NounsOf(s, to), [id]);
  }

  lemma OvercountedSupply(s: Store, t: Truth, a: Address, id: NounId)
    requires TotalsRight(s, t) && a != ZERO_ADDRESS && id !in t.owner
    ensures !TotalsRight(AfterTransfer(s, a, a, id), TruthTransfer(t, a, a, id))
  {
    TransferTotals(s, a, a, id);
    assert TruthTransfer(t, a, a, id).Live() == t.Live() + {id};
  }

  lemma DebitWithoutNoun(s: Store, t: Truth, from: Address, to: Address, id: NounId)
    requires AccountRight(s, t, from) && from != ZERO_ADDRESS && from != to && !t.Owns(from, id)
    ensures !AccountRight(AfterTransfer(s, from, to, id), TruthTransfer(t, from, to, id), from)
  {
    TransferAccounts(s, from, to, id, from);
    WithoutOne(NounsOf(s, from), id);
  }

  lemma TransferBreaks(s: Store, t: Truth, from: Address, to: Address, id: NounId)
    requires Right(s, t) && !WellFormedTransfer(t, from, to, id)
    ensures !Right(AfterTransfer(s, from, to, id), TruthTransfer(t, from, to, id))
  {
    if from != ZERO_ADDRESS && from != to {
      Look(s, t, from);
      DebitWithoutNoun(s, t, from, to, id);
    } else if id !in t.owner {
      OvercountedSupply(s, t, from, id);
    } else {
      var a := t.owner[id];
      Look(s, t, a);
      assert t.Owns(a, id);
      if a == to {
        TwiceListed(s, t, from, to, id);
      } else {
        TransferAccounts(s, from, to, id, a);
        StaleNoun(AfterTransfer(s, from, to, id), TruthTransfer(t, from, to, id), a, id);
      }
    }
  }

  /** `handleTransfer` keeps the index right on exactly the well-formed events. */
  lemma TransferExact(s: Store, t: Truth, from: Address, to: Address, id: NounId)
    requires Right(s, t)
    ensures Right(AfterTransfer(s, from, to, id), TruthTransfer(t, from, to, id)) <==> WellFormedTransfer(t, from, to, id)
  {
    if WellFormedTransfer(t, from, to, id) {
      TransferKeeps(s, t, from, to, id);
    } else {
      TransferBreaks(s, t, from, to, id);
    }
  }

  // ---------- delegation changes ----------

  lemma DelegationAccounts(s: Store, delegator: Address, fromDelegate: Address, toDelegate: Address, a: Address)
    ensures AccountOf(AfterDelegateChanged(s, delegator, fromDelegate, toDelegate), a) ==
            if a == delegator then AccountOf(s, a).(delegate := Some(toDelegate)) else AccountOf(s, a)
  {
    var s0 := EnsureAccount(s, delegator);
    EnsureAccountAdds(s, delegator, a);
    EnsureDelegateAdds(s0, fromDelegate, a);
    EnsureDelegateAdds(EnsureDelegate(s0, fromDelegate), toDelegate, a);
  }

  /** Creating the two delegates changes nothing that is looked up. */
  lemma EnsureDelegatesAdds(s: Store, a: Address, b: Address, d: Address)
    ensures var s1 := EnsureDelegate(EnsureDelegate(s, a), b);
            && a in s1.delegates && b in s1.delegates && s1.accounts == s.accounts
            && DelegateOf(s1, d) == DelegateOf(s, d)
  {
    EnsureDelegateAdds(s, a, d);
    EnsureDelegateAdds(EnsureDelegate(s, a), b, d);
  }

  lemma RedelegateLists(s: Store, delegator: Address, fromDelegate: Address, toDelegate: Address, d: Address)
    requires delegator in s.accounts && fromDelegate in s.delegates && toDelegate in s.delegates
    ensures RepresentedBy(Redelegate(s, delegator, fromDelegate, toDelegate), d) ==
            if d == toDelegate then RepresentedBy(s, d) + NounsOf(s, delegator)
            else if d == fromDelegate then Without(RepresentedBy(s, d), NounsOf(s, delegator))
            else RepresentedBy(s, d)
  {
  }

  /** The new delegate's copy is saved last; it was loaded before the previous delegate's was saved. */
  lemma DelegationLists(s: Store, delegator: Address, fromDelegate: Address, toDelegate: Address, d: Address)
    ensures RepresentedBy(AfterDelegateChanged(s, delegator, fromDelegate, toDelegate), d) ==
            if d == toDelegate then RepresentedBy(s, d) + NounsOf(s, delegator)
            else if d == fromDelegate then Without(RepresentedBy(s, d), NounsOf(s, delegator))
            else RepresentedBy(s, d)
  {
    var s0 := EnsureAccount(s, delegator);
    var s1 := EnsureDelegate(EnsureDelegate(s0, fromDelegate), toDelegate);
    EnsureAccountAdds(s, delegator, delegator);
    EnsureDelegatesAdds(s0, fromDelegate, toDelegate, d);
    EnsureDelegatesAdds(s0, fromDelegate, toDelegate, fromDelegate);
    EnsureDelegatesAdds(s0, fromDelegate, toDelegate, toDelegate);
    RedelegateLists(s1, delegator, fromDelegate, toDelegate, d);
  }

  lemma DelegationTotals(s: Store, delegator: Address, fromDelegate: Address, toDelegate: Address)
    ensures var after := AfterDelegateChanged(s, delegator, fromDelegate, toDelegate);
            && GovernanceOf(after).currentTokenHolders == GovernanceOf(s).currentTokenHolders
            && GovernanceOf(after).totalTokenHolders == GovernanceOf(s).totalTokenHolders
            && after.nouns == s.nouns
  {
    var s0 := EnsureAccount(s, delegator);
    EnsureAccountAdds(s, delegator, delegator);
    EnsureDelegateAdds(s0, fromDelegate, delegator);
    EnsureDelegateAdds(EnsureDelegate(s0, fromDelegate), toDelegate, delegator);
  }

  lemma DelegationAccountRight(s: Store, t: Truth, delegator: Address, fromDelegate: Address, toDelegate: Address, a: Address)
    requires AccountRight(s, t, a) && delegator in t.delegate
    ensures AccountRight(AfterDelegateChanged(s, delegator, fromDelegate, toDelegate),
                         TruthDelegateChanged(t, delegator, toDelegate), a)
  {
    var t' := TruthDelegateChanged(t, delegator, toDelegate);
    DelegationAccounts(s, delegator, fromDelegate, toDelegate, a);
    assert forall n :: t'.Owns(a, n) <==> t.Owns(a, n);
  }

  /** Only the delegator's nouns change hands. */
  lemma DelegationRepresented(t: Truth, delegator: Address, toDelegate: Address, d: Address, n: NounId)
    requires delegator in t.delegate
    ensures TruthDelegateChanged(t, delegator, toDelegate).Represents(d, n) <==>
            if t.Owns(delegator, n) then d == toDelegate else t.Represents(d, n)
  {
  }

  lemma DelegationListHas(s: Store, t: Truth, delegator: Address, fromDelegate: Address, toDelegate: Address, d: Address, n: NounId)
    requires HoldsExactly(NounsOf(s, delegator), t, delegator) && RepresentsExactly(RepresentedBy(s, d), t, d)
    requires WellFormedDelegateChanged(t, delegator, fromDelegate, toDelegate)
    ensures n in RepresentedBy(AfterDelegateChanged(s, delegator, fromDelegate, toDelegate), d) <==>
            TruthDelegateChanged(t, delegator, toDelegate).Represents(d, n)
  {
    DelegationLists(s, delegator, fromDelegate, toDelegate, d);
    DelegationRepresented(t, delegator, toDelegate, d, n);
    WithoutHas(RepresentedBy(s, d), NounsOf(s, delegator), n);
  }

  lemma DelegationListRight(s: Store, t: Truth, delegator: Address, fromDelegate: Address, toDelegate: Address, d: Address)
    requires HoldsExactly(NounsOf(s, delegator), t, delegator) && RepresentsExactly(RepresentedBy(s, d), t, d)
    requires WellFormedDelegateChanged(t, delegator, fromDelegate, toDelegate)
    ensures RepresentsExactly(RepresentedBy(AfterDelegateChanged(s, delegator, fromDelegate, toDelegate), d),
                              TruthDelegateChanged(t, delegator, toDelegate), d)
  {
    DelegationLists(s, delegator, fromDelegate, toDelegate, d);
    WithoutDistinct(RepresentedBy(s, d), NounsOf(s, delegator));
    DistinctAppend(RepresentedBy(s, d), NounsOf(s, delegator));
    forall n
      ensures n in RepresentedBy(AfterDelegateChanged(s, delegator, fromDelegate, toDelegate), d) <==>
              TruthDelegateChanged(t, delegator, toDelegate).Represents(d, n)
    {
      DelegationListHas(s, t, delegator, fromDelegate, toDelegate, d, n);
    }
  }

  lemma DelegationKeeps(s: Store, t: Truth, delegator: Address, fromDelegate: Address, toDelegate: Address)
    requires Right(s, t) && WellFormedDelegateChanged(t, delegator, fromDelegate, toDelegate)
    ensures Right(AfterDelegateChanged(s, delegator, fromDelegate, toDelegate),
                  TruthDelegateChanged(t, delegator, toDelegate))
  {
    var s', t' := AfterDelegateChanged(s, delegator, fromDelegate, toDelegate), TruthDelegateChanged(t, delegator, toDelegate);
    Look(s, t, delegator);
    forall a: Address
      ensures AccountRight(s', t', a)
    {
      Look(s, t, a);
      DelegationAccountRight(s, t, delegator, fromDelegate, toDelegate, a);
    }
    forall d: Address
      ensures RepresentsExactly(RepresentedBy(s', d), t', d)
    {
      DelegationListRight(s, t, delegator, fromDelegate, toDelegate, d);
    }
    DelegationTotals(s, delegator, fromDelegate, toDelegate);
    assert t'.delegate.Keys == t.delegate.Keys && t'.Live() == t.Live();
  }

  /** A delegator without nouns gets a delegate all the same. */
  lemma IdleDelegator(s: Store, t: Truth, delegator: Address, fromDelegate: Address, toDelegate: Address)
    requires AccountRight(s, t, delegator) && delegator !in t.delegate
    ensures !AccountRight(AfterDelegateChanged(s, delegator, fromDelegate, toDelegate),
                          TruthDelegateChanged(t, delegator, toDelegate), delegator)
  {
    DelegationAccounts(s, delegator, fromDelegate, toDelegate, delegator);
  }

  /** The delegator's nouns stay in a list, or come twice into one, when they are not taken out of the recorded delegate's. */
  lemma NounsNotTaken(s: Store, t: Truth, delegator: Address, fromDelegate: Address, toDelegate: Address)
    requires AccountRight(s, t, delegator) && delegator in t.delegate
    requires RepresentsExactly(RepresentedBy(s, t.delegate[delegator]), t, t.delegate[delegator])
    requires t.delegate[delegator] != fromDelegate || fromDelegate == toDelegate
    ensures var r := t.delegate[delegator];
            !RepresentsExactly(RepresentedBy(AfterDelegateChanged(s, delegator, fromDelegate, toDelegate), r),
                               TruthDelegateChanged(t, delegator, toDelegate), r)
  {
    var r, n := t.delegate[delegator], NounsOf(s, delegator)[0];
    assert n in NounsOf(s, delegator) && t.Owns(delegator, n) && t.Represents(r, n) && n in RepresentedBy(s, r);
    DelegationLists(s, delegator, fromDelegate, toDelegate, r);
    DelegationRepresented(t, delegator, toDelegate, r, n);
    DistinctAppend(RepresentedBy(s, r), NounsOf(s, delegator));
  }

  /** `handleDelegateChanged` keeps the index right on exactly the well-formed events. */
  lemma DelegationExact(s: Store, t: Truth, delegator: Address, fromDelegate: Address, toDelegate: Address)
    requires Right(s, t)
    ensures Right(AfterDelegateChanged(s, delegator, fromDelegate, toDelegate), TruthDelegateChanged(t, delegator, toDelegate)) <==>
            WellFormedDelegateChanged(t, delegator, fromDelegate, toDelegate)
  {
    Look(s, t, delegator);
    if WellFormedDelegateChanged(t, delegator, fromDelegate, toDelegate) {
      DelegationKeeps(s, t, delegator, fromDelegate, toDelegate);
    } else if delegator !in t.delegate {
      IdleDelegator(s, t, delegator, fromDelegate, toDelegate);
    } else {
      NounsNotTaken(s, t, delegator, fromDelegate, toDelegate);
    }
  }
}
