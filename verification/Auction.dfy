/**
 The live auction of the web app: bids arrive in any order and more than once, and the auction shows
 the highest and its bidder.
 */
module Auction {
  import opened Lists
  import opened Wrappers

  /** A bidder's address, and a transaction hash, as numbers. */
  type Address = nat
  type Hash = nat

  const NOBODY: Address := 0

  datatype AuctionInfo = AuctionInfo(amount: nat, bidder: Address, startTime: nat, endTime: nat, nounId: nat, settled: bool)

  datatype Bid = Bid(nounId: nat, sender: Address, value: nat, extended: bool, transactionHash: Hash, timestamp: nat)

  datatype State = State(activeAuction: Option<AuctionInfo>, bids: seq<Bid>)

  datatype Action =
    | SetActiveAuction(nounId: nat, startTime: nat, endTime: nat)
    | SetFullAuction(auction: AuctionInfo)
    | AppendBid(bid: Bid)
    | SetAuctionSettled(settledNoun: nat, winner: Address, amount: nat)
    | SetAuctionExtended(extendedNoun: nat, newEndTime: nat)

  function Hashes(bids: seq<Bid>): (hashes: seq<Hash>)
    ensures |hashes| == |bids|
  {
    seq(|bids|, i requires 0 <= i < |bids| => bids[i].transactionHash)
  }

  function ContainsBid(bids: seq<Bid>, bid: Bid): bool {
    bid.transactionHash in Hashes(bids)
  }

  /** The fold of `maxBid`: an equal later bid of the list replaces an earlier one. */
  function MaxBid(bids: seq<Bid>): Bid
    requires bids != []
  {
    if |bids| == 1 then bids[0]
    else
      var prev, current := MaxBid(bids[..|bids| - 1]), bids[|bids| - 1];
      if prev.value > current.value then prev else current
  }

  function ForActive(s: State, nounId: nat): bool {
    s.activeAuction.Some? && s.activeAuction.value.nounId == nounId
  }

  function AfterBid(s: State, bid: Bid): State {
    if !ForActive(s, bid.nounId) || ContainsBid(s.bids, bid) then s
    else
      var bids := [bid] + s.bids;
      var best := MaxBid(bids);
      State(Some(s.activeAuction.value.(amount := best.value, bidder := best.sender)), bids)
  }

  function Reduce(s: State, a: Action): State {
    match a
    case SetActiveAuction(nounId, startTime, endTime) => State(Some(AuctionInfo(0, NOBODY, startTime, endTime, nounId, false)), [])
    case SetFullAuction(auction) => s.(activeAuction := Some(auction))
    case AppendBid(bid) => AfterBid(s, bid)
    case SetAuctionSettled(nounId, winner, amount) =>
      if !ForActive(s, nounId) then s
      else s.(activeAuction := Some(s.activeAuction.value.(settled := true, bidder := winner, amount := amount)))
    case SetAuctionExtended(nounId, endTime) =>
      if !ForActive(s, nounId) then s else s.(activeAuction := Some(s.activeAuction.value.(endTime := endTime)))
  }

  // ---------- the slice ----------

  class AuctionSlice {
    var activeAuction: Option<AuctionInfo>
    var bids: seq<Bid>

    constructor ()
      ensures activeAuction == None && bids == []
    {
      activeAuction, bids := None, [];
    }

    method Handle(a: Action)
      modifies this
      ensures State(activeAuction, bids) == Reduce(old(State(activeAuction, bids)), a)
    {
      match a {
        case SetActiveAuction(nounId, startTime, endTime) =>
          activeAuction := Some(AuctionInfo(0, NOBODY, startTime, endTime, nounId, false));
          bids := [];
        case SetFullAuction(auction) =>
          activeAuction := Some(auction);
        case AppendBid(bid) =>
          Append(bid);
        case SetAuctionSettled(nounId, winner, amount) =>
          if activeAuction.Some? && activeAuction.value.nounId == nounId {
            activeAuction := Some(activeAuction.value.(settled := true, bidder := winner, amount := amount));
          }
        case SetAuctionExtended(nounId, endTime) =>
          if activeAuction.Some? && activeAuction.value.nounId == nounId {
            activeAuction := Some(activeAuction.value.(endTime := endTime));
          }
      }
    }

    method Append(bid: Bid)
      modifies this
      ensures State(activeAuction, bids) == AfterBid(old(State(activeAuction, bids)), bid)
    {
      if activeAuction.None? || activeAuction.value.nounId != bid.nounId || ContainsBid(bids, bid) {
        return;
      }
      bids := [bid] + bids;
      var best := bids[0];
      for i := 1 to |bids|
        invariant best == MaxBid(bids[..i])
        invariant activeAuction == old(activeAuction) && bids == [bid] + old(bids)
      {
        assert bids[..i + 1][..i] == bids[..i];
        best := if best.value > bids[i].value then best else bids[i];
      }
      assert bids[..|bids|] == bids;
      activeAuction := Some(activeAuction.value.(amount := best.value, bidder := best.sender));
    }
  }

  // ---------- any run of bids ----------

  function AfterBids(s: State, arrivals: seq<Bid>): State {
    if arrivals == [] then s else AfterBid(AfterBids(s, arrivals[..|arrivals| - 1]), arrivals[|arrivals| - 1])
  }

  lemma {:induction false} HashListed(bids: seq<Bid>, h: Hash)
    ensures h in Hashes(bids) <==> exists b <- bids :: b.transactionHash == h
  {
    if h in Hashes(bids) {
      var i :| 0 <= i < |bids| && Hashes(bids)[i] == h;
      assert bids[i] in bids;
    }
    if b :| b in bids && b.transactionHash == h {
      var i :| 0 <= i < |bids| && bids[i] == b;
      assert Hashes(bids)[i] == h;
    }
  }

  /** The stored bids: for the active noun, each transaction once, and the auction shows the highest of them. */
  ghost predicate Shown(s: State, before: AuctionInfo) {
    && s.activeAuction.Some?
    && (forall b <- s.bids :: b.nounId == before.nounId)
    && Distinct(Hashes(s.bids))
    && s.activeAuction.value ==
       if s.bids == [] then before
       else before.(amount := MaxBid(s.bids).value, bidder := MaxBid(s.bids).sender)
  }

  lemma AppendKeeps(s: State, before: AuctionInfo, bid: Bid)
    requires Shown(s, before)
    ensures Shown(AfterBid(s, bid), before)
  {
    if ForActive(s, bid.nounId) && !ContainsBid(s.bids, bid) {
      assert Hashes([bid] + s.bids) == [bid.transactionHash] + Hashes(s.bids);
      DistinctAppend([bid.transactionHash], Hashes(s.bids));
      assert Distinct([bid.transactionHash]);
    }
  }

  /** The bids that were stored: those that arrived for the active noun, up to repeated transactions. */
  predicate Stored(s: State, before: AuctionInfo, arrivals: seq<Bid>) {
    (forall b <- s.bids :: b in arrivals && b.nounId == before.nounId) &&
    forall b <- arrivals :: b.nounId == before.nounId ==> ContainsBid(s.bids, b)
  }

  lemma {:induction false} BidsKept(before: AuctionInfo, arrivals: seq<Bid>)
    ensures var s := AfterBids(State(Some(before), []), arrivals); Shown(s, before) && Stored(s, before, arrivals)
  {
    if arrivals != [] {
      var prefix, bid := arrivals[..|arrivals| - 1], arrivals[|arrivals| - 1];
      var mid := AfterBids(State(Some(before), []), prefix);
      BidsKept(before, prefix);
      AppendKeeps(mid, before, bid);
      assert arrivals == prefix + [bid];
      if AfterBid(mid, bid) != mid {
        forall b | b in arrivals && b.nounId == before.nounId
          ensures ContainsBid([bid] + mid.bids, b)
        {
          assert Hashes([bid] + mid.bids) == [bid.transactionHash] + Hashes(mid.bids);
        }
      }
    }
  }

  /** The arrival is for the noun, and the first of its transaction. */
  predicate FirstArrival(arrivals: seq<Bid>, nounId: nat, m: nat)
    requires m < |arrivals|
  {
    arrivals[m].nounId == nounId &&
    forall j :: 0 <= j < m ==> !(arrivals[j].nounId == nounId && arrivals[j].transactionHash == arrivals[m].transactionHash)
  }

  lemma {:induction false} MaxBidFront(bid: Bid, bids: seq<Bid>)
    requires bids != []
    ensures MaxBid([bid] + bids) == if bid.value > MaxBid(bids).value then bid else MaxBid(bids)
  {
    var n := |bids| - 1;
    assert ([bid] + bids)[..|bids|] == [bid] + bids[..n];
    if n > 0 {
      MaxBidFront(bid, bids[..n]);
    }
  }

  /** A bid is stored exactly when it is the first arrival of its transaction for the noun. */
  lemma StoredWhenFirst(before: AuctionInfo, arrivals: seq<Bid>)
    requires arrivals != []
    ensures var n := |arrivals| - 1;
            var s := AfterBids(State(Some(before), []), arrivals[..n]);
            FirstArrival(arrivals, before.nounId, n) <==> ForActive(s, arrivals[n].nounId) && !ContainsBid(s.bids, arrivals[n])
  {
    var n := |arrivals| - 1;
    var prefix, bid := arrivals[..n], arrivals[n];
    var s := AfterBids(State(Some(before), []), prefix);
    BidsKept(before, prefix);
    HashListed(s.bids, bid.transactionHash);
    if ContainsBid(s.bids, bid) {
      var b :| b in s.bids && b.transactionHash == bid.transactionHash;
      assert b in prefix;
    }
    if bid.nounId == before.nounId && !FirstArrival(arrivals, before.nounId, n) {
      var j :| 0 <= j < n && arrivals[j].nounId == before.nounId && arrivals[j].transactionHash == bid.transactionHash;
      assert prefix[j] in prefix;
    }
  }

  /** The `k`-th arrival has the highest value of the noun's bids, and is the earliest that has. */
  predicate Best(arrivals: seq<Bid>, nounId: nat, k: nat) {
    k < |arrivals| && FirstArrival(arrivals, nounId, k) &&
    forall m :: 0 <= m < |arrivals| && FirstArrival(arrivals, nounId, m) ==>
      arrivals[m].value <= arrivals[k].value && (m < k ==> arrivals[m].value < arrivals[k].value)
  }

  predicate NoBid(arrivals: seq<Bid>, nounId: nat) {
    forall m :: 0 <= m < |arrivals| ==> !FirstArrival(arrivals, nounId, m)
  }

  lemma FirstInPrefix(arrivals: seq<Bid>, nounId: nat, m: nat)
    requires m + 1 < |arrivals|
    ensures FirstArrival(arrivals, nounId, m) <==> FirstArrival(arrivals[..|arrivals| - 1], nounId, m)
  {
  }

  lemma BestAdvances(arrivals: seq<Bid>, nounId: nat, k: nat)
    requires arrivals != []
    ensures var n := |arrivals| - 1;
            Best(arrivals[..n], nounId, k) ==>
              Best(arrivals, nounId, if FirstArrival(arrivals, nounId, n) && arrivals[n].value > arrivals[k].value then n else k)
    ensures NoBid(arrivals[..|arrivals| - 1], nounId) ==>
              if FirstArrival(arrivals, nounId, |arrivals| - 1) then Best(arrivals, nounId, |arrivals| - 1) else NoBid(arrivals, nounId)
  {
    forall m | 0 <= m < |arrivals| - 1
      ensures FirstArrival(arrivals, nounId, m) <==> FirstArrival(arrivals[..|arrivals| - 1], nounId, m)
    {
      FirstInPrefix(arrivals, nounId, m);
    }
  }

  /**
   After any arrivals: the amount is the highest value of the noun's bids, each transaction counted
   when it first arrives, and the bidder is the sender of the one of that value that arrived earliest.
   */
  lemma {:induction false} HighestAndEarliest(before: AuctionInfo, arrivals: seq<Bid>) returns (k: nat)
    ensures var s := AfterBids(State(Some(before), []), arrivals);
            if s.bids == [] then NoBid(arrivals, before.nounId) && s.activeAuction == Some(before)
            else Best(arrivals, before.nounId, k) && MaxBid(s.bids) == arrivals[k] &&
                 s.activeAuction == Some(before.(amount := arrivals[k].value, bidder := arrivals[k].sender))
  {
    k := 0;
    BidsKept(before, arrivals);
    if arrivals != [] {
      var n := |arrivals| - 1;
      var bid := arrivals[n];
      var s := AfterBids(State(Some(before), []), arrivals[..n]);
      k := HighestAndEarliest(before, arrivals[..n]);
      StoredWhenFirst(before, arrivals);
      BestAdvances(arrivals, before.nounId, k);
      if FirstArrival(arrivals, before.nounId, n) {
        if s.bids == [] {
          assert [bid] + s.bids == [bid];
          k := n;
        } else {
          MaxBidFront(bid, s.bids);
          k := if bid.value > arrivals[k].value then n else k;
        }
      }
    }
  }

  // ---------- when the order of arrival matters ----------

  /** The same transaction is the same bid. */
  predicate OneBidPerHash(arrivals: seq<Bid>, nounId: nat) {
    forall b <- arrivals, c <- arrivals :: b.nounId == c.nounId == nounId && b.transactionHash == c.transactionHash ==> b == c
  }

  /** A bid on the noun that no other is higher than. */
  predicate Top(arrivals: seq<Bid>, nounId: nat, b: Bid) {
    b in arrivals && b.nounId == nounId && forall c <- arrivals :: c.nounId == nounId ==> c.value <= b.value
  }

  predicate OneTopSender(arrivals: seq<Bid>, nounId: nat) {
    forall b <- arrivals, c <- arrivals :: Top(arrivals, nounId, b) && Top(arrivals, nounId, c) ==> b.sender == c.sender
  }

  /** The same bids, in any order and with any repeats. */
  ghost predicate SameBids(arrivals: seq<Bid>, others: seq<Bid>) {
    forall b :: b in arrivals <==> b in others
  }

  function Shows(before: AuctionInfo, arrivals: seq<Bid>): Option<AuctionInfo> {
    AfterBids(State(Some(before), []), arrivals).activeAuction
  }

  /** Where a bid's transaction arrived first. */
  lemma {:induction false} FirstOf(arrivals: seq<Bid>, nounId: nat, j: nat) returns (m: nat)
    requires j < |arrivals| && arrivals[j].nounId == nounId
    ensures m <= j && FirstArrival(arrivals, nounId, m) && arrivals[m].transactionHash == arrivals[j].transactionHash
    decreases j
  {
    m := j;
    if !FirstArrival(arrivals, nounId, j) {
      var i :| 0 <= i < j && arrivals[i].nounId == nounId && arrivals[i].transactionHash == arrivals[j].transactionHash;
      m := FirstOf(arrivals, nounId, i);
    }
  }

  /** The auction shows one of the highest bids, or what it showed before if there is none. */
  lemma ShowsTop(before: AuctionInfo, arrivals: seq<Bid>) returns (k: nat)
    requires OneBidPerHash(arrivals, before.nounId)
    ensures if forall b <- arrivals :: b.nounId != before.nounId then Shows(before, arrivals) == Some(before)
            else Best(arrivals, before.nounId, k) && Top(arrivals, before.nounId, arrivals[k]) &&
                 Shows(before, arrivals) == Some(before.(amount := arrivals[k].value, bidder := arrivals[k].sender))
  {
    k := HighestAndEarliest(before, arrivals);
    forall j | 0 <= j < |arrivals| && arrivals[j].nounId == before.nounId
      ensures !NoBid(arrivals, before.nounId)
      ensures Best(arrivals, before.nounId, k) ==> arrivals[j].value <= arrivals[k].value
    {
      var m := FirstOf(arrivals, before.nounId, j);
      assert arrivals[m] in arrivals && arrivals[j] in arrivals;
    }
    BidsKept(before, arrivals);
  }

  lemma SameTops(arrivals: seq<Bid>, others: seq<Bid>, nounId: nat, b: Bid)
    requires SameBids(arrivals, others)
    ensures Top(arrivals, nounId, b) <==> Top(others, nounId, b)
    ensures OneBidPerHash(arrivals, nounId) <==> OneBidPerHash(others, nounId)
  {
  }

  /** With one sender of the highest bids the order cannot matter. */
  lemma OneSenderOneResult(before: AuctionInfo, arrivals: seq<Bid>, others: seq<Bid>)
    requires OneBidPerHash(arrivals, before.nounId) && OneTopSender(arrivals, before.nounId) && SameBids(arrivals, others)
    ensures Shows(before, arrivals) == Shows(before, others)
  {
    SameTops(arrivals, others, before.nounId, Bid(0, 0, 0, false, 0, 0));
    var k := ShowsTop(before, arrivals);
    var l := ShowsTop(before, others);
    if b :| b in arrivals && b.nounId == before.nounId {
      SameTops(arrivals, others, before.nounId, others[l]);
      assert arrivals[k] in arrivals && others[l] in arrivals;
    }
  }

  /** A highest bid that arrives first is the one that is shown. */
  lemma FirstTopShows(before: AuctionInfo, arrivals: seq<Bid>, b: Bid)
    requires OneBidPerHash(arrivals, before.nounId) && Top(arrivals, before.nounId, b)
    ensures SameBids(arrivals, [b] + arrivals)
    ensures Shows(before, [b] + arrivals) == Some(before.(amount := b.value, bidder := b.sender))
  {
    var others := [b] + arrivals;
    assert SameBids(arrivals, others);
    SameTops(arrivals, others, before.nounId, b);
    var k := ShowsTop(before, others);
    assert others[0] == b && b in others && FirstArrival(others, before.nounId, 0);
    assert others[k] in others;
  }

  /** Whatever the order and the repeats of these bids, the auction shows the same. */
  ghost predicate OrderIsNothing(before: AuctionInfo, arrivals: seq<Bid>) {
    forall others :: SameBids(arrivals, others) ==> Shows(before, others) == Shows(before, arrivals)
  }

  /** The order of arrival does not matter if and only if all the highest bids on the noun are one sender's. */
  lemma ArrivalOrderExact(before: AuctionInfo, arrivals: seq<Bid>)
    requires OneBidPerHash(arrivals, before.nounId)
    ensures OrderIsNothing(before, arrivals) <==> OneTopSender(arrivals, before.nounId)
  {
    if OneTopSender(arrivals, before.nounId) {
      forall others | SameBids(arrivals, others)
        ensures Shows(before, others) == Shows(before, arrivals)
      {
        OneSenderOneResult(before, arrivals, others);
      }
    } else {
      var b, c :| b in arrivals && c in arrivals && Top(arrivals, before.nounId, b) && Top(arrivals, before.nounId, c) && b.sender != c.sender;
      FirstTopShows(before, arrivals, b);
      FirstTopShows(before, arrivals, c);
    }
  }

  /** Bids of distinct values on the noun: their order never matters. */
  lemma ArrivalOrderDoesNotMatter(before: AuctionInfo, arrivals: seq<Bid>)
    requires OneBidPerHash(arrivals, before.nounId)
    requires forall b <- arrivals, c <- arrivals :: b.nounId == c.nounId == before.nounId && b.value == c.value ==> b == c
    ensures OrderIsNothing(before, arrivals)
  {
    assert forall b <- arrivals, c <- arrivals ::
        Top(arrivals, before.nounId, b) && Top(arrivals, before.nounId, c) ==> b.value == c.value;
    ArrivalOrderExact(before, arrivals);
  }

  // ---------- runs of all the actions ----------

  /** `setFullAuction` keeps the stored bids: they still belong to the active noun exactly when it is the same noun, or there are none. */
  lemma FullAuctionExact(s: State, auction: AuctionInfo)
    requires s.activeAuction.Some? && forall b <- s.bids :: b.nounId == s.activeAuction.value.nounId
    ensures var after := Reduce(s, SetFullAuction(auction));
            (forall b <- after.bids :: b.nounId == after.activeAuction.value.nounId) <==>
            s.bids == [] || auction.nounId == s.activeAuction.value.nounId
  {
    if s.bids != [] {
      assert s.bids[0] in s.bids;
    }
  }

  /** The stored bids belong to the active noun, one for each transaction. */
  predicate Tidy(s: State) {
    && Distinct(Hashes(s.bids))
    && if s.activeAuction.None? then s.bids == [] else forall b <- s.bids :: b.nounId == s.activeAuction.value.nounId
  }

  /** A full auction arrives for the active noun, or while no bids are stored. */
  predicate Fits(s: State, a: Action) {
    a.SetFullAuction? ==> s.bids == [] || (s.activeAuction.Some? && a.auction.nounId == s.activeAuction.value.nounId)
  }

  /** Of the five actions only a full auction of another noun leaves bids that do not belong. */
  lemma ReduceTidyExact(s: State, a: Action)
    requires Tidy(s)
    ensures Tidy(Reduce(s, a)) <==> Fits(s, a)
  {
    match a {
      case AppendBid(bid) =>
        if ForActive(s, bid.nounId) && !ContainsBid(s.bids, bid) {
          assert Hashes([bid] + s.bids) == [bid.transactionHash] + Hashes(s.bids);
          DistinctAppend([bid.transactionHash], Hashes(s.bids));
          assert Distinct([bid.transactionHash]);
        }
      case SetFullAuction(auction) =>
        if s.activeAuction.Some? {
          FullAuctionExact(s, auction);
        }
      case _ =>
    }
  }

  function ReduceAll(s: State, actions: seq<Action>): State {
    if actions == [] then s else Reduce(ReduceAll(s, actions[..|actions| - 1]), actions[|actions| - 1])
  }

  predicate TidyAllAlong(s: State, actions: seq<Action>) {
    Tidy(ReduceAll(s, actions)) && (actions == [] || TidyAllAlong(s, actions[..|actions| - 1]))
  }

  predicate AllFit(s: State, actions: seq<Action>) {
    actions == [] ||
    (AllFit(s, actions[..|actions| - 1]) && Fits(ReduceAll(s, actions[..|actions| - 1]), actions[|actions| - 1]))
  }

  /** Over any run of actions the stored bids belong to the active noun, all along, if and only if each full auction fits. */
  lemma {:induction false} TidyRunExact(actions: seq<Action>)
    ensures TidyAllAlong(State(None, []), actions) <==> AllFit(State(None, []), actions)
  {
    if actions != [] {
      TidyRunExact(actions[..|actions| - 1]);
      if TidyAllAlong(State(None, []), actions[..|actions| - 1]) {
        ReduceTidyExact(ReduceAll(State(None, []), actions[..|actions| - 1]), actions[|actions| - 1]);
      }
    }
  }

  // ---------- what is shown since the auction was set ----------

  /** The auction is not set again. */
  predicate SameAuction(actions: seq<Action>) {
    forall a <- actions :: !a.SetActiveAuction? && !a.SetFullAuction?
  }

  /** The bids that arrive. */
  function BidsIn(actions: seq<Action>): seq<Bid> {
    if actions == [] then []
    else
      var last := actions[|actions| - 1];
      BidsIn(actions[..|actions| - 1]) + (if last.AppendBid? then [last.bid] else [])
  }

  /** The end that the last extension sets. */
  function EndOf(actions: seq<Action>, nounId: nat, end: nat): nat {
    if actions == [] then end
    else
      var last := actions[|actions| - 1];
      if last.SetAuctionExtended? && last.extendedNoun == nounId then last.newEndTime else EndOf(actions[..|actions| - 1], nounId, end)
  }

  predicate Settles(a: Action, nounId: nat) {
    a.SetAuctionSettled? && a.settledNoun == nounId
  }

  predicate SettledIn(actions: seq<Action>, nounId: nat) {
    exists a <- actions :: Settles(a, nounId)
  }

  /** What the bids alone come to. */
  function OfBids(opening: AuctionInfo, kept: seq<Bid>, actions: seq<Action>): State {
    AfterBids(State(Some(opening), kept), BidsIn(actions))
  }

  /**
   The amount and the bidder: those of the last settlement, unless a bid was stored after it, or those
   that the bids alone come to.
   */
  function Standing(opening: AuctionInfo, kept: seq<Bid>, actions: seq<Action>): (nat, Address) {
    if actions == [] then (opening.amount, opening.bidder)
    else
      var earlier, last := actions[..|actions| - 1], actions[|actions| - 1];
      var shown := OfBids(opening, kept, actions);
      if Settles(last, opening.nounId) then (last.amount, last.winner)
      else if |shown.bids| > |OfBids(opening, kept, earlier).bids| && shown.activeAuction.Some? then
        (shown.activeAuction.value.amount, shown.activeAuction.value.bidder)
      else Standing(opening, kept, earlier)
  }

  lemma {:induction false} BidsKeepNoun(s: State, arrivals: seq<Bid>)
    requires s.activeAuction.Some?
    ensures AfterBids(s, arrivals).activeAuction.Some?
    ensures AfterBids(s, arrivals).activeAuction.value.nounId == s.activeAuction.value.nounId
  {
    if arrivals != [] {
      BidsKeepNoun(s, arrivals[..|arrivals| - 1]);
    }
  }

  /** What is shown after an auction was set, with the bids that were stored then. */
  ghost predicate ShownSince(s: State, opening: AuctionInfo, kept: seq<Bid>, actions: seq<Action>) {
    && s.bids == OfBids(opening, kept, actions).bids
    && s.activeAuction.Some?
    && var info := s.activeAuction.value;
       && info.nounId == opening.nounId && info.startTime == opening.startTime
       && info.endTime == EndOf(actions, opening.nounId, opening.endTime)
       && info.settled == (opening.settled || SettledIn(actions, opening.nounId))
       && (info.amount, info.bidder) == Standing(opening, kept, actions)
  }

  /** A bid on an auction, and on what its bids alone come to. */
  lemma SameBest(s: State, shown: State, bid: Bid)
    requires s.activeAuction.Some? && shown.activeAuction.Some?
    requires s.bids == shown.bids && s.activeAuction.value.nounId == shown.activeAuction.value.nounId
    ensures var after, also := AfterBid(s, bid), AfterBid(shown, bid);
            && after.bids == also.bids && after.activeAuction.Some? && also.activeAuction.Some?
            && after.activeAuction.value ==
               if |also.bids| > |shown.bids| then
                 s.activeAuction.value.(amount := also.activeAuction.value.amount, bidder := also.activeAuction.value.bidder)
               else s.activeAuction.value
  {
  }

  lemma OneMoreBid(opening: AuctionInfo, kept: seq<Bid>, actions: seq<Action>, bid: Bid)
    ensures var all := actions + [AppendBid(bid)];
            && OfBids(opening, kept, all) == AfterBid(OfBids(opening, kept, actions), bid)
            && EndOf(all, opening.nounId, opening.endTime) == EndOf(actions, opening.nounId, opening.endTime)
            && (SettledIn(all, opening.nounId) <==> SettledIn(actions, opening.nounId))
            && all[..|all| - 1] == actions
  {
    var all, arrivals := actions + [AppendBid(bid)], BidsIn(actions);
    assert all[..|actions|] == actions;
    assert BidsIn(all) == arrivals + [bid] && (arrivals + [bid])[..|arrivals|] == arrivals;
  }

  lemma BidShown(s: State, opening: AuctionInfo, kept: seq<Bid>, actions: seq<Action>, bid: Bid)
    requires ShownSince(s, opening, kept, actions)
    ensures ShownSince(AfterBid(s, bid), opening, kept, actions + [AppendBid(bid)])
  {
    OneMoreBid(opening, kept, actions, bid);
    BidsKeepNoun(State(Some(opening), kept), BidsIn(actions));
    SameBest(s, OfBids(opening, kept, actions), bid);
  }

  lemma OtherShown(s: State, opening: AuctionInfo, kept: seq<Bid>, actions: seq<Action>, a: Action)
    requires ShownSince(s, opening, kept, actions) && (a.SetAuctionSettled? || a.SetAuctionExtended?)
    ensures ShownSince(Reduce(s, a), opening, kept, actions + [a])
  {
    var all := actions + [a];
    assert all[..|actions|] == actions;
    assert BidsIn(all) == BidsIn(actions);
    assert a in all;
    assert SettledIn(all, opening.nounId) <==> SettledIn(actions, opening.nounId) || Settles(a, opening.nounId);
  }

  lemma {:induction false} ShownOverActions(opening: AuctionInfo, kept: seq<Bid>, actions: seq<Action>)
    requires SameAuction(actions)
    ensures ShownSince(ReduceAll(State(Some(opening), kept), actions), opening, kept, actions)
  {
    if actions != [] {
      var earlier, last := actions[..|actions| - 1], actions[|actions| - 1];
      assert actions == earlier + [last] && last in actions;
      ShownOverActions(opening, kept, earlier);
      var s := ReduceAll(State(Some(opening), kept), earlier);
      if last.AppendBid? {
        BidShown(s, opening, kept, earlier, last.bid);
      } else {
        OtherShown(s, opening, kept, earlier, last);
      }
    }
  }

  lemma {:induction false} ReduceAppend(s: State, before: seq<Action>, actions: seq<Action>)
    ensures ReduceAll(s, before + actions) == ReduceAll(ReduceAll(s, before), actions)
  {
    if actions == [] {
      assert before + actions == before;
    } else {
      ReduceAppend(s, before, actions[..|actions| - 1]);
      assert (before + actions)[..|before + actions| - 1] == before + actions[..|actions| - 1];
    }
  }

  lemma SetThen(before: seq<Action>, a: Action, actions: seq<Action>)
    ensures ReduceAll(State(None, []), before + [a] + actions) == ReduceAll(Reduce(ReduceAll(State(None, []), before), a), actions)
  {
    ReduceAppend(State(None, []), before + [a], actions);
    assert (before + [a])[..|before|] == before;
  }

  /**
   After any actions, an auction that becomes active and those on it: the noun and the start are its
   own, the end is the last it was extended to, it is settled if it was settled since, and amount and
   bidder are those of the last settlement or, if a bid was stored later or there is none, what
   its bids alone come to, nothing and nobody at first.
   */
  lemma ActiveAuctionShown(before: seq<Action>, nounId: nat, startTime: nat, endTime: nat, since: seq<Action>)
    requires SameAuction(since)
    ensures ShownSince(ReduceAll(State(None, []), before + [SetActiveAuction(nounId, startTime, endTime)] + since),
                       AuctionInfo(0, 0, startTime, endTime, nounId, false), [], since)
  {
    SetThen(before, SetActiveAuction(nounId, startTime, endTime), since);
    ShownOverActions(AuctionInfo(0, 0, startTime, endTime, nounId, false), [], since);
  }

  /** The same of a full auction, which starts as it is given, with the bids that are stored. */
  lemma FullAuctionShown(before: seq<Action>, auction: AuctionInfo, since: seq<Action>)
    requires SameAuction(since)
    ensures ShownSince(ReduceAll(State(None, []), before + [SetFullAuction(auction)] + since),
                       auction, ReduceAll(State(None, []), before).bids, since)
  {
    SetThen(before, SetFullAuction(auction), since);
    ShownOverActions(auction, ReduceAll(State(None, []), before).bids, since);
  }

  /** An action that settles nothing and stores no bid. */
  lemma StandingStays(opening: AuctionInfo, kept: seq<Bid>, actions: seq<Action>, last: Action)
    requires !Settles(last, opening.nounId)
    requires |OfBids(opening, kept, actions + [last]).bids| <= |OfBids(opening, kept, actions).bids|
    ensures Standing(opening, kept, actions + [last]) == Standing(opening, kept, actions)
  {
    assert (actions + [last])[..|actions|] == actions;
  }

  lemma StandingSettled(opening: AuctionInfo, kept: seq<Bid>, actions: seq<Action>, settle: Action)
    requires Settles(settle, opening.nounId)
    ensures Standing(opening, kept, actions + [settle]) == (settle.amount, settle.winner)
  {
    assert (actions + [settle])[..|actions|] == actions;
  }

  lemma {:induction false} NothingStoredSince(opening: AuctionInfo, kept: seq<Bid>, a: seq<Action>, settle: Action, b: seq<Action>)
    requires Settles(settle, opening.nounId) && !SettledIn(b, opening.nounId)
    requires |OfBids(opening, kept, a + [settle] + b).bids| == |OfBids(opening, kept, a).bids|
    ensures Standing(opening, kept, a + [settle] + b) == (settle.amount, settle.winner)
  {
    if b == [] {
      assert a + [settle] + b == a + [settle];
      StandingSettled(opening, kept, a, settle);
    } else {
      var init, last := b[..|b| - 1], b[|b| - 1];
      var mid := a + [settle] + init;
      assert last in b && forall x <- init :: x in b;
      assert a + [settle] + b == mid + [last] && mid == a + ([settle] + init);
      BidsGrow(opening, kept, a, [settle] + init);
      BidsGrow(opening, kept, mid, [last]);
      NothingStoredSince(opening, kept, a, settle, init);
      StandingStays(opening, kept, mid, last);
    }
  }

  lemma {:induction false} BidsGrow(opening: AuctionInfo, kept: seq<Bid>, a: seq<Action>, b: seq<Action>)
    ensures |OfBids(opening, kept, a).bids| <= |OfBids(opening, kept, a + b).bids|
  {
    if b == [] {
      assert a + b == a;
    } else {
      var n := |b| - 1;
      BidsGrow(opening, kept, a, b[..n]);
      assert (a + b)[..|a + b| - 1] == a + b[..n];
      var arrivals := BidsIn(a + b[..n]);
      if b[n].AppendBid? {
        assert (arrivals + [b[n].bid])[..|arrivals|] == arrivals;
      } else {
        assert BidsIn(a + b) == arrivals;
      }
    }
  }

  /** An action that is no bid, or a bid that is not stored. */
  lemma SameOfBids(opening: AuctionInfo, kept: seq<Bid>, actions: seq<Action>, last: Action)
    ensures var all := OfBids(opening, kept, actions + [last]);
            all == OfBids(opening, kept, actions) || |all.bids| > |OfBids(opening, kept, actions).bids|
  {
    assert (actions + [last])[..|actions|] == actions;
    if last.AppendBid? {
      OneMoreBid(opening, kept, actions, last.bid);
    } else {
      assert BidsIn(actions + [last]) == BidsIn(actions);
    }
  }

  /** The amount and the bidder that the bids alone come to. */
  function BidsShow(opening: AuctionInfo, kept: seq<Bid>, actions: seq<Action>): (nat, Address) {
    var info := OfBids(opening, kept, actions).activeAuction.GetOr(opening);
    (info.amount, info.bidder)
  }

  lemma StandingStored(opening: AuctionInfo, kept: seq<Bid>, actions: seq<Action>, last: Action)
    requires !Settles(last, opening.nounId)
    requires |OfBids(opening, kept, actions + [last]).bids| > |OfBids(opening, kept, actions).bids|
    ensures Standing(opening, kept, actions + [last]) == BidsShow(opening, kept, actions + [last])
  {
    BidsKeepNoun(State(Some(opening), kept), BidsIn(actions + [last]));
    assert (actions + [last])[..|actions|] == actions;
  }

  lemma {:induction false} StoredSince(opening: AuctionInfo, kept: seq<Bid>, a: seq<Action>, b: seq<Action>)
    requires !SettledIn(b, opening.nounId)
    requires |OfBids(opening, kept, a + b).bids| > |OfBids(opening, kept, a).bids|
    ensures Standing(opening, kept, a + b) == BidsShow(opening, kept, a + b)
  {
    assert a + [] == a;
    if b != [] {
      var init, last := b[..|b| - 1], b[|b| - 1];
      assert last in b && forall x <- init :: x in b;
      assert a + b == a + init + [last];
      SameOfBids(opening, kept, a + init, last);
      if OfBids(opening, kept, a + b) == OfBids(opening, kept, a + init) {
        StoredSince(opening, kept, a, init);
        StandingStays(opening, kept, a + init, last);
      } else {
        StandingStored(opening, kept, a + init, last);
      }
    }
  }

  /**
   Once settled the auction stays so. The last settlement's winner and amount are shown as long as no
   more bids are stored; from then on it is what the bids come to, as if there had been no settlement.
   */
  lemma SettlementShown(before: seq<Action>, nounId: nat, startTime: nat, endTime: nat, a: seq<Action>, winner: Address, amount: nat, b: seq<Action>)
    requires SameAuction(a) && SameAuction(b) && !SettledIn(b, nounId)
    ensures var opening, since := AuctionInfo(0, 0, startTime, endTime, nounId, false), a + [SetAuctionSettled(nounId, winner, amount)] + b;
            var s := ReduceAll(State(None, []), before + [SetActiveAuction(nounId, startTime, endTime)] + since);
            && s.activeAuction.Some? && s.activeAuction.value.settled
            && (s.activeAuction.value.amount, s.activeAuction.value.bidder) ==
               if |s.bids| == |OfBids(opening, [], a).bids| then (amount, winner) else BidsShow(opening, [], since)
  {
    var opening, settle := AuctionInfo(0, 0, startTime, endTime, nounId, false), SetAuctionSettled(nounId, winner, amount);
    var since := a + [settle] + b;
    assert settle in since && Settles(settle, nounId);
    ActiveAuctionShown(before, nounId, startTime, endTime, since);
    SettledStanding(opening, [], a, settle, b);
  }

  lemma SettledStanding(opening: AuctionInfo, kept: seq<Bid>, a: seq<Action>, settle: Action, b: seq<Action>)
    requires Settles(settle, opening.nounId) && !SettledIn(b, opening.nounId)
    ensures Standing(opening, kept, a + [settle] + b) ==
            if |OfBids(opening, kept, a + [settle] + b).bids| == |OfBids(opening, kept, a).bids| then (settle.amount, settle.winner)
            else BidsShow(opening, kept, a + [settle] + b)
  {
    if |OfBids(opening, kept, a + [settle] + b).bids| == |OfBids(opening, kept, a).bids| {
      NothingStoredSince(opening, kept, a, settle, b);
    } else {
      assert BidsIn(a + [settle]) == BidsIn(a) by {
        assert (a + [settle])[..|a|] == a;
      }
      BidsGrow(opening, kept, a + [settle], b);
      StoredSince(opening, kept, a + [settle], b);
    }
  }

  lemma {:induction false} StandingUnsettled(opening: AuctionInfo, kept: seq<Bid>, actions: seq<Action>)
    requires !SettledIn(actions, opening.nounId)
    ensures var info := OfBids(opening, kept, actions).activeAuction;
            info.Some? && Standing(opening, kept, actions) == (info.value.amount, info.value.bidder)
  {
    BidsKeepNoun(State(Some(opening), kept), BidsIn(actions));
    if actions != [] {
      var earlier, last := actions[..|actions| - 1], actions[|actions| - 1];
      assert actions == earlier + [last] && last in actions && forall x <- earlier :: x in actions;
      StandingUnsettled(opening, kept, earlier);
      SameOfBids(opening, kept, earlier, last);
    }
  }

  /**
   Until it is settled the highest bid since the auction became active is shown, with the earliest
   sender of it; without one, nothing and nobody.
   */
  lemma UnsettledShown(before: seq<Action>, nounId: nat, startTime: nat, endTime: nat, since: seq<Action>) returns (k: nat)
    requires SameAuction(since) && !SettledIn(since, nounId)
    ensures var s := ReduceAll(State(None, []), before + [SetActiveAuction(nounId, startTime, endTime)] + since);
            var arrivals := BidsIn(since);
            && s.activeAuction.Some? && !s.activeAuction.value.settled
            && if NoBid(arrivals, nounId) then s.activeAuction.value.amount == 0 && s.activeAuction.value.bidder == 0
               else Best(arrivals, nounId, k) && s.activeAuction.value.amount == arrivals[k].value &&
                    s.activeAuction.value.bidder == arrivals[k].sender
  {
    var opening := AuctionInfo(0, 0, startTime, endTime, nounId, false);
    ActiveAuctionShown(before, nounId, startTime, endTime, since);
    StandingUnsettled(opening, [], since);
    k := HighestAndEarliest(opening, BidsIn(since));
  }

  /** A bid that arrives after the settlement is shown in place of the winner. */
  lemma LateBid(nounId: nat, startTime: nat, endTime: nat, winner: Address, amount: nat, bid: Bid)
    requires bid.nounId == nounId
    ensures var actions := [SetActiveAuction(nounId, startTime, endTime), SetAuctionSettled(nounId, winner, amount), AppendBid(bid)];
            ReduceAll(State(None, []), actions).activeAuction == Some(AuctionInfo(bid.value, bid.sender, startTime, endTime, nounId, true))
  {
    var active, settle, late := SetActiveAuction(nounId, startTime, endTime), SetAuctionSettled(nounId, winner, amount), AppendBid(bid);
    assert [active, settle, late][..2] == [active, settle] && [active, settle][..1] == [active] && [active][..0] == [];
    assert ReduceAll(State(None, []), [active]) == Reduce(State(None, []), active);
    assert [bid] + [] == [bid];
  }

  lemma SecondBid(auction: AuctionInfo, first: Bid, second: Bid)
    requires second.nounId == auction.nounId && first.transactionHash != second.transactionHash
    ensures var best := if second.value > first.value then second else first;
            AfterBid(State(Some(auction), [first]), second) == State(Some(auction.(amount := best.value, bidder := best.sender)), [second, first])
  {
    assert Hashes([first]) == [first.transactionHash];
    var bids := [second] + [first];
    assert bids == [second, first] && bids[..1] == [second] && MaxBid([second]) == second;
  }

  /** A bid of 10 on noun 1 that stays when noun 2's auction is set hides a bid of 5 on noun 2. */
  lemma StaleBid()
    ensures var mine, other := Bid(2, 8, 5, false, 101, 0), Bid(1, 7, 10, false, 100, 0);
            var s := State(Some(AuctionInfo(10, 7, 0, 0, 1, false)), [other]);
            var after := AfterBid(Reduce(s, SetFullAuction(AuctionInfo(0, NOBODY, 0, 0, 2, false))), mine);
            after.bids == [mine, other] && after.activeAuction == Some(AuctionInfo(10, 7, 0, 0, 2, false))
  {
    var mine, other := Bid(2, 8, 5, false, 101, 0), Bid(1, 7, 10, false, 100, 0);
    assert Hashes([other]) == [100];
    SecondBid(AuctionInfo(0, NOBODY, 0, 0, 2, false), other, mine);
  }

  /** Two bids of one value by two senders: each order shows its first, so that the order matters. */
  lemma TieGoesToTheFirst(before: AuctionInfo, a: Bid, b: Bid)
    requires a.nounId == b.nounId == before.nounId && a.transactionHash != b.transactionHash
    requires a.value == b.value && a.sender != b.sender
    ensures Shows(before, [a, b]) == Some(before.(amount := a.value, bidder := a.sender))
    ensures Shows(before, [b, a]) == Some(before.(amount := b.value, bidder := b.sender))
    ensures SameBids([a, b], [b, a]) && !OneTopSender([a, b], before.nounId) && !OrderIsNothing(before, [a, b])
  {
    TwoArrivals(before, a, b);
    TwoArrivals(before, b, a);
    assert a in [a, b] && b in [a, b];
    assert Top([a, b], before.nounId, a) && Top([a, b], before.nounId, b);
    assert SameBids([a, b], [b, a]);
  }

  lemma TwoArrivals(before: AuctionInfo, a: Bid, b: Bid)
    requires a.nounId == b.nounId == before.nounId && a.transactionHash != b.transactionHash && a.value == b.value
    ensures Shows(before, [a, b]) == Some(before.(amount := a.value, bidder := a.sender))
  {
    var s := State(Some(before), []);
    assert [a, b][..1] == [a] && [a][..0] == [];
    assert AfterBids(s, [a]) == AfterBid(s, a);
    assert [a] + [] == [a] && MaxBid([a]) == a;
    SecondBid(before.(amount := a.value, bidder := a.sender), a, b);
  }
}
