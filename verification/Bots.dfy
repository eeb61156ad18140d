/**
 The notification bot: its ticks over caches, with the notifications recorded as a trace, and what
 that trace never repeats.
 */
module Bots {
  import Entities
  import opened Lists
  import opened Wrappers

  const SECONDS_IN_DAY: int := 60 * 60 * 24

  datatype AuctionBids = AuctionBids(id: nat, endTime: int, bids: seq<nat>)

  datatype Vote = Vote(id: nat, votes: int)

  datatype Proposal = Proposal(id: nat, status: Entities.Status, executionETA: int, votes: seq<Vote>)

  datatype Notice =
    | NewAuction(auction: nat)
    | NewBid(auction: nat, bid: nat)
    | AuctionEndingSoon(auction: nat)
    | NewProposal(proposal: nat)
    | UpdatedStatus(proposal: nat, status: Entities.Status)
    | GovernanceVote(proposal: nat, vote: nat)
    | AtRiskOfExpiry(proposal: nat)

  /** An id that was never cached reads as 0; a bid that was never cached as none. */
  datatype Cache = Cache(auction: nat, bid: Option<nat>, endingSoon: nat, proposals: map<nat, Proposal>, warned: set<nat>)

  const EMPTY_CACHE := Cache(0, None, 0, map[], {})

  datatype Bot = Bot(cache: Cache, trace: seq<Notice>) {
    function Notify(notice: Notice): Bot {
      this.(trace := trace + [notice])
    }
  }

  // ---------- the auction tick ----------

  function Discover(b: Bot, last: AuctionBids): Bot {
    if b.cache.auction < last.id then b.(cache := b.cache.(auction := last.id)).Notify(NewAuction(last.id)) else b
  }

  function ShowBid(b: Bot, last: AuctionBids): Bot {
    if |last.bids| > 0 && b.cache.bid != Some(last.bids[0]) then
      b.(cache := b.cache.(bid := Some(last.bids[0]))).Notify(NewBid(last.id, last.bids[0]))
    else b
  }

  function WarnEnding(b: Bot, last: AuctionBids, now: int): Bot {
    if last.endTime - now < 20 * 60 && b.cache.endingSoon < last.id then
      b.(cache := b.cache.(endingSoon := last.id)).Notify(AuctionEndingSoon(last.id))
    else b
  }

  function AuctionTick(b: Bot, last: AuctionBids, now: int): Bot {
    WarnEnding(ShowBid(Discover(b, last), last), last, now)
  }

  // ---------- the governance tick ----------

  function VoteIds(votes: seq<Vote>): (ids: seq<nat>)
    ensures |ids| == |votes|
  {
    seq(|votes|, i requires 0 <= i < |votes| => votes[i].id)
  }

  function NewVotes(cached: seq<nat>, votes: seq<Vote>): seq<Vote> {
    if votes == [] then []
    else
      var last := votes[|votes| - 1];
      NewVotes(cached, votes[..|votes| - 1]) + (if last.id !in cached && last.votes > 0 then [last] else [])
  }

  function ExtractNewVotes(before: Proposal, after: Proposal): seq<Vote> {
    NewVotes(VoteIds(before.votes), after.votes)
  }

  function IsAtRiskOfExpiry(p: Proposal, now: int): bool {
    p.status == Entities.QUEUED &&
    var secondsUntilExpiry := p.executionETA + SECONDS_IN_DAY * 14 - now;
    0 < secondsUntilExpiry <= SECONDS_IN_DAY * 2
  }

  function VoteNotices(proposal: nat, votes: seq<Vote>): (notices: seq<Notice>)
    ensures |notices| == |votes|
  {
    seq(|votes|, i requires 0 <= i < |votes| => GovernanceVote(proposal, votes[i].id))
  }

  /** The notices about a proposal that was cached before. */
  function Changes(b: Bot, cached: Proposal, p: Proposal, now: int): Bot {
    var b1 := if cached.status != p.status then b.Notify(UpdatedStatus(p.id, p.status)) else b;
    var b2 := b1.(trace := b1.trace + VoteNotices(p.id, ExtractNewVotes(cached, p)));
    if IsAtRiskOfExpiry(p, now) && p.id !in b2.cache.warned then
      b2.Notify(AtRiskOfExpiry(p.id)).(cache := b2.cache.(warned := b2.cache.warned + {p.id}))
    else b2
  }

  function ProposalStep(b: Bot, p: Proposal, now: int): Bot {
    var b1 := if p.id !in b.cache.proposals then b.Notify(NewProposal(p.id)) else Changes(b, b.cache.proposals[p.id], p, now);
    b1.(cache := b1.cache.(proposals := b1.cache.proposals[p.id := p]))
  }

  function GovernanceTick(b: Bot, proposals: seq<Proposal>, now: int): Bot {
    if proposals == [] then b
    else ProposalStep(GovernanceTick(b, proposals[..|proposals| - 1], now), proposals[|proposals| - 1], now)
  }

  datatype Tick = OfAuction(last: AuctionBids, now: int) | OfGovernance(proposals: seq<Proposal>, at: int)

  function Step(b: Bot, tick: Tick): Bot {
    match tick
    case OfAuction(last, now) => AuctionTick(b, last, now)
    case OfGovernance(proposals, now) => GovernanceTick(b, proposals, now)
  }

  /** Ticks that do not overlap. */
  function Run(b: Bot, ticks: seq<Tick>): Bot {
    if ticks == [] then b else Step(Run(b, ticks[..|ticks| - 1]), ticks[|ticks| - 1])
  }

  // ---------- the bot ----------

  class NotificationBot {
    var cache: Cache
    var trace: seq<Notice>

    constructor ()
      ensures cache == EMPTY_CACHE && trace == []
    {
      cache, trace := EMPTY_CACHE, [];
    }

    method ProcessAuctionTick(lastAuctionBids: AuctionBids, now: int)
      modifies this
      ensures Bot(cache, trace) == AuctionTick(old(Bot(cache, trace)), lastAuctionBids, now)
    {
      var cachedAuctionId, cachedBidId, cachedAuctionEndingSoon := cache.auction, cache.bid, cache.endingSoon;
      var lastAuctionId := lastAuctionBids.id;
      if cachedAuctionId < lastAuctionId {
        cache := cache.(auction := lastAuctionId);
        trace := trace + [NewAuction(lastAuctionId)];
      }
      if |lastAuctionBids.bids| > 0 && cachedBidId != Some(lastAuctionBids.bids[0]) {
        var bid := lastAuctionBids.bids[0];
        cache := cache.(bid := Some(bid));
        trace := trace + [NewBid(lastAuctionId, bid)];
      }
      var secondsUntilAuctionEnds := lastAuctionBids.endTime - now;
      if secondsUntilAuctionEnds < 20 * 60 && cachedAuctionEndingSoon < lastAuctionId {
        cache := cache.(endingSoon := lastAuctionId);
        trace := trace + [AuctionEndingSoon(lastAuctionId)];
      }
    }

    method TellVotes(proposal: nat, newVotes: seq<Vote>)
      modifies this`trace
      ensures trace == old(trace) + VoteNotices(proposal, newVotes)
    {
      for i := 0 to |newVotes|
        invariant trace == old(trace) + VoteNotices(proposal, newVotes)[..i]
      {
        trace := trace + [GovernanceVote(proposal, newVotes[i].id)];
      }
    }

    method ProcessProposal(proposal: Proposal, now: int)
      modifies this
      ensures Bot(cache, trace) == ProposalStep(old(Bot(cache, trace)), proposal, now)
    {
      if proposal.id !in cache.proposals {
        trace := trace + [NewProposal(proposal.id)];
      } else {
        var cachedProposal := cache.proposals[proposal.id];
        if cachedProposal.status != proposal.status {
          trace := trace + [UpdatedStatus(proposal.id, proposal.status)];
        }
        var newVotes := ExtractNewVotes(cachedProposal, proposal);
        TellVotes(proposal.id, newVotes);
        if IsAtRiskOfExpiry(proposal, now) && proposal.id !in cache.warned {
          trace := trace + [AtRiskOfExpiry(proposal.id)];
          cache := cache.(warned := cache.warned + {proposal.id});
        }
      }
      cache := cache.(proposals := cache.proposals[proposal.id := proposal]);
    }

    method ProcessGovernanceTick(proposals: seq<Proposal>, now: int)
      modifies this
      ensures Bot(cache, trace) == GovernanceTick(old(Bot(cache, trace)), proposals, now)
    {
      for i := 0 to |proposals|
        invariant Bot(cache, trace) == GovernanceTick(old(Bot(cache, trace)), proposals[..i], now)
      {
        assert proposals[..i + 1][..i] == proposals[..i];
        ProcessProposal(proposals[i], now);
      }
      assert proposals[..|proposals|] == proposals;
    }
  }

  // ---------- what is announced about auctions ----------

  predicate AboutAuction(n: Notice) {
    n.NewAuction? || n.NewBid? || n.AuctionEndingSoon?
  }

  /** The notices about auctions, in order. */
  function OfAuctions(trace: seq<Notice>): seq<Notice> {
    if trace == [] then []
    else
      var last := trace[|trace| - 1];
      OfAuctions(trace[..|trace| - 1]) + (if AboutAuction(last) then [last] else [])
  }

  lemma {:induction false} OfAuctionsAppend(a: seq<Notice>, b: seq<Notice>)
    ensures OfAuctions(a + b) == OfAuctions(a) + OfAuctions(b)
  {
    if b == [] {
      assert a + b == a;
    } else {
      OfAuctionsAppend(a, b[..|b| - 1]);
      assert (a + b)[..|a + b| - 1] == a + b[..|b| - 1];
    }
  }

  lemma OfAuctionsNotify(b: Bot, n: Notice)
    ensures OfAuctions(b.Notify(n).trace) == OfAuctions(b.trace) + (if AboutAuction(n) then [n] else [])
  {
    assert b.Notify(n).trace[..|b.trace|] == b.trace;
  }

  /** The ids of a run's auction ticks, all or those of less than 20 minutes before the end. */
  function AuctionIds(ticks: seq<Tick>, ending: bool): seq<nat> {
    if ticks == [] then []
    else
      var last := ticks[|ticks| - 1];
      AuctionIds(ticks[..|ticks| - 1], ending)
      + (if last.OfAuction? && (ending ==> last.last.endTime - last.now < 1200) then [last.last.id] else [])
  }

  /** The first bid of the latest auction tick that has bids, or the one that was cached. */
  function LatestBid(ticks: seq<Tick>, cached: Option<nat>): Option<nat> {
    if ticks == [] then cached
    else
      var last := ticks[|ticks| - 1];
      if last.OfAuction? && |last.last.bids| > 0 then Some(last.last.bids[0]) else LatestBid(ticks[..|ticks| - 1], cached)
  }

  predicate Exceeds(id: nat, cached: nat, earlier: seq<nat>) {
    cached < id && forall e <- earlier :: e < id
  }

  /** The auction is announced as new if its id exceeds the cached one and all before. */
  function DueNew(c: Cache, earlier: seq<Tick>, last: AuctionBids): seq<Notice> {
    if Exceeds(last.id, c.auction, AuctionIds(earlier, false)) then [NewAuction(last.id)] else []
  }

  /** Its first bid is announced if it is another than the latest. */
  function DueBid(c: Cache, earlier: seq<Tick>, last: AuctionBids): seq<Notice> {
    if |last.bids| > 0 && LatestBid(earlier, c.bid) != Some(last.bids[0]) then [NewBid(last.id, last.bids[0])] else []
  }

  /** Its end is announced less than 20 minutes before it, if its id exceeds the cached one and all that came as near. */
  function DueEnd(c: Cache, earlier: seq<Tick>, last: AuctionBids, now: int): seq<Notice> {
    if last.endTime - now < 1200 && Exceeds(last.id, c.endingSoon, AuctionIds(earlier, true)) then [AuctionEndingSoon(last.id)] else []
  }

  /** What a run of ticks should announce about auctions. */
  function AllDue(c: Cache, ticks: seq<Tick>): seq<Notice> {
    if ticks == [] then []
    else
      var earlier, tick := ticks[..|ticks| - 1], ticks[|ticks| - 1];
      AllDue(c, earlier) +
      if tick.OfAuction? then DueNew(c, earlier, tick.last) + DueBid(c, earlier, tick.last) + DueEnd(c, earlier, tick.last, tick.now) else []
  }

  function LastCached(c: Cache, ending: bool): nat {
    if ending then c.endingSoon else c.auction
  }

  /** The cached id is the largest of the ticks' and the one that was cached first. */
  predicate IsLargest(id: nat, first: nat, ids: seq<nat>) {
    first <= id && (id == first || id in ids) && forall i <- ids :: i <= id
  }

  /** The caches say what the ticks were, and the notices about auctions were those that were due. */
  ghost predicate UpToDate(b: Bot, c: Cache, ticks: seq<Tick>) {
    && IsLargest(b.cache.auction, c.auction, AuctionIds(ticks, false))
    && IsLargest(b.cache.endingSoon, c.endingSoon, AuctionIds(ticks, true))
    && b.cache.bid == LatestBid(ticks, c.bid)
    && OfAuctions(b.trace) == AllDue(c, ticks)
  }

  lemma LargestExceeds(id: nat, cached: nat, first: nat, ids: seq<nat>)
    requires IsLargest(cached, first, ids)
    ensures cached < id <==> Exceeds(id, first, ids)
    ensures IsLargest(if cached < id then id else cached, first, ids + [id])
  {
  }

  lemma DiscoverTells(b: Bot, last: AuctionBids)
    ensures var after := Discover(b, last);
            && OfAuctions(after.trace) == OfAuctions(b.trace) + (if b.cache.auction < last.id then [NewAuction(last.id)] else [])
            && after.cache == b.cache.(auction := if b.cache.auction < last.id then last.id else b.cache.auction)
  {
    OfAuctionsNotify(b.(cache := b.cache.(auction := last.id)), NewAuction(last.id));
  }

  lemma ShowBidTells(b: Bot, last: AuctionBids)
    ensures var after := ShowBid(b, last);
            && OfAuctions(after.trace) ==
               OfAuctions(b.trace)
               + (if |last.bids| > 0 && b.cache.bid != Some(last.bids[0]) then [NewBid(last.id, last.bids[0])] else [])
            && after.cache == b.cache.(bid := if |last.bids| > 0 then Some(last.bids[0]) else b.cache.bid)
  {
    if |last.bids| > 0 {
      OfAuctionsNotify(b.(cache := b.cache.(bid := Some(last.bids[0]))), NewBid(last.id, last.bids[0]));
    }
  }

  lemma WarnEndingTells(b: Bot, last: AuctionBids, now: int)
    ensures var after := WarnEnding(b, last, now);
            var near := last.endTime - now < 1200 && b.cache.endingSoon < last.id;
            && OfAuctions(after.trace) == OfAuctions(b.trace) + (if near then [AuctionEndingSoon(last.id)] else [])
            && after.cache == b.cache.(endingSoon := if near then last.id else b.cache.endingSoon)
  {
    OfAuctionsNotify(b.(cache := b.cache.(endingSoon := last.id)), AuctionEndingSoon(last.id));
  }

  lemma DiscoverDue(b: Bot, c: Cache, ticks: seq<Tick>, last: AuctionBids)
    requires IsLargest(b.cache.auction, c.auction, AuctionIds(ticks, false))
    ensures OfAuctions(Discover(b, last).trace) == OfAuctions(b.trace) + DueNew(c, ticks, last)
    ensures IsLargest(Discover(b, last).cache.auction, c.auction, AuctionIds(ticks, false) + [last.id])
  {
    DiscoverTells(b, last);
    LargestExceeds(last.id, b.cache.auction, c.auction, AuctionIds(ticks, false));
  }

  lemma ShowBidDue(b: Bot, c: Cache, ticks: seq<Tick>, last: AuctionBids)
    requires b.cache.bid == LatestBid(ticks, c.bid)
    ensures OfAuctions(ShowBid(b, last).trace) == OfAuctions(b.trace) + DueBid(c, ticks, last)
  {
    ShowBidTells(b, last);
  }

  lemma WarnEndingDue(b: Bot, c: Cache, ticks: seq<Tick>, last: AuctionBids, now: int)
    requires IsLargest(b.cache.endingSoon, c.endingSoon, AuctionIds(ticks, true))
    ensures OfAuctions(WarnEnding(b, last, now).trace) == OfAuctions(b.trace) + DueEnd(c, ticks, last, now)
    ensures IsLargest(WarnEnding(b, last, now).cache.endingSoon, c.endingSoon,
                      AuctionIds(ticks, true) + (if last.endTime - now < 1200 then [last.id] else []))
  {
    WarnEndingTells(b, last, now);
    LargestExceeds(last.id, b.cache.endingSoon, c.endingSoon, AuctionIds(ticks, true));
    assert AuctionIds(ticks, true) + [] == AuctionIds(ticks, true);
  }

  lemma AllDueLast(c: Cache, ticks: seq<Tick>, last: AuctionBids, now: int)
    ensures AllDue(c, ticks + [OfAuction(last, now)]) ==
            AllDue(c, ticks) + (DueNew(c, ticks, last) + DueBid(c, ticks, last) + DueEnd(c, ticks, last, now))
    ensures AuctionIds(ticks + [OfAuction(last, now)], false) == AuctionIds(ticks, false) + [last.id]
    ensures AuctionIds(ticks + [OfAuction(last, now)], true) ==
            AuctionIds(ticks, true) + (if last.endTime - now < 1200 then [last.id] else [])
    ensures LatestBid(ticks + [OfAuction(last, now)], c.bid) ==
            if |last.bids| > 0 then Some(last.bids[0]) else LatestBid(ticks, c.bid)
  {
    assert (ticks + [OfAuction(last, now)])[..|ticks|] == ticks;
  }

  lemma TickDue(b: Bot, c: Cache, ticks: seq<Tick>, last: AuctionBids, now: int)
    requires UpToDate(b, c, ticks)
    ensures var after := AuctionTick(b, last, now);
            && OfAuctions(after.trace) == OfAuctions(b.trace) + DueNew(c, ticks, last) + DueBid(c, ticks, last) + DueEnd(c, ticks, last, now)
            && IsLargest(after.cache.auction, c.auction, AuctionIds(ticks, false) + [last.id])
            && IsLargest(after.cache.endingSoon, c.endingSoon,
                         AuctionIds(ticks, true) + (if last.endTime - now < 1200 then [last.id] else []))
            && after.cache.bid == (if |last.bids| > 0 then Some(last.bids[0]) else b.cache.bid)
  {
    var b1 := Discover(b, last);
    var b2 := ShowBid(b1, last);
    DiscoverTells(b, last);
    DiscoverDue(b, c, ticks, last);
    ShowBidTells(b1, last);
    ShowBidDue(b1, c, ticks, last);
    WarnEndingTells(b2, last, now);
    WarnEndingDue(b2, c, ticks, last, now);
  }

  lemma AuctionTickUpToDate(b: Bot, c: Cache, ticks: seq<Tick>, last: AuctionBids, now: int)
    requires UpToDate(b, c, ticks)
    ensures UpToDate(AuctionTick(b, last, now), c, ticks + [OfAuction(last, now)])
  {
    TickDue(b, c, ticks, last, now);
    AllDueLast(c, ticks, last, now);
  }

  /** What the auction ticks need is as it was. */
  predicate SilentOnAuctions(b: Bot, after: Bot) {
    && after.cache.auction == b.cache.auction && after.cache.bid == b.cache.bid && after.cache.endingSoon == b.cache.endingSoon
    && OfAuctions(after.trace) == OfAuctions(b.trace)
  }

  lemma {:induction false} VoteNoticesSilent(proposal: nat, votes: seq<Vote>)
    ensures OfAuctions(VoteNotices(proposal, votes)) == []
  {
    if votes != [] {
      var n := |votes| - 1;
      VoteNoticesSilent(proposal, votes[..n]);
      assert VoteNotices(proposal, votes)[..n] == VoteNotices(proposal, votes[..n]);
    }
  }

  lemma VotesSilent(b: Bot, proposal: nat, votes: seq<Vote>)
    ensures SilentOnAuctions(b, b.(trace := b.trace + VoteNotices(proposal, votes)))
  {
    VoteNoticesSilent(proposal, votes);
    OfAuctionsAppend(b.trace, VoteNotices(proposal, votes));
  }

  lemma NotifySilent(b: Bot, n: Notice)
    requires !AboutAuction(n)
    ensures SilentOnAuctions(b, b.Notify(n))
  {
    OfAuctionsNotify(b, n);
  }

  lemma ChangesSilent(b: Bot, cached: Proposal, p: Proposal, now: int)
    ensures SilentOnAuctions(b, Changes(b, cached, p, now))
  {
    var b1 := if cached.status != p.status then b.Notify(UpdatedStatus(p.id, p.status)) else b;
    var b2 := b1.(trace := b1.trace + VoteNotices(p.id, ExtractNewVotes(cached, p)));
    NotifySilent(b, UpdatedStatus(p.id, p.status));
    VotesSilent(b1, p.id, ExtractNewVotes(cached, p));
    NotifySilent(b2, AtRiskOfExpiry(p.id));
  }

  lemma {:induction false} GovernanceSilent(b: Bot, proposals: seq<Proposal>, now: int)
    ensures SilentOnAuctions(b, GovernanceTick(b, proposals, now))
  {
    if proposals != [] {
      var mid, p := GovernanceTick(b, proposals[..|proposals| - 1], now), proposals[|proposals| - 1];
      GovernanceSilent(b, proposals[..|proposals| - 1], now);
      if p.id in mid.cache.proposals {
        ChangesSilent(mid, mid.cache.proposals[p.id], p, now);
      } else {
        OfAuctionsNotify(mid, NewProposal(p.id));
      }
    }
  }

  lemma GovernanceUpToDate(b: Bot, after: Bot, c: Cache, ticks: seq<Tick>, proposals: seq<Proposal>, now: int)
    requires UpToDate(b, c, ticks) && SilentOnAuctions(b, after)
    ensures UpToDate(after, c, ticks + [OfGovernance(proposals, now)])
  {
    assert (ticks + [OfGovernance(proposals, now)])[..|ticks|] == ticks;
  }

  lemma {:induction false} RunUpToDate(c: Cache, ticks: seq<Tick>)
    ensures UpToDate(Run(Bot(c, []), ticks), c, ticks)
  {
    if ticks != [] {
      var init, tick := ticks[..|ticks| - 1], ticks[|ticks| - 1];
      var mid := Run(Bot(c, []), init);
      RunUpToDate(c, init);
      assert ticks == init + [tick];
      match tick {
        case OfAuction(last, now) => AuctionTickUpToDate(mid, c, init, last, now);
        case OfGovernance(proposals, now) =>
          GovernanceSilent(mid, proposals, now);
          GovernanceUpToDate(mid, GovernanceTick(mid, proposals, now), c, init, proposals, now);
      }
    }
  }

  /** Over any run of ticks the notices about auctions are, in order, those that each tick should give after the ones before it. */
  lemma AuctionNoticesExact(c: Cache, ticks: seq<Tick>)
    ensures OfAuctions(Run(Bot(c, []), ticks).trace) == AllDue(c, ticks)
  {
    RunUpToDate(c, ticks);
  }

  /** The auction that a notice announces as new, or as ending soon. */
  function Named(n: Notice, ending: bool): seq<nat> {
    if !ending && n.NewAuction? then [n.auction] else if ending && n.AuctionEndingSoon? then [n.auction] else []
  }

  function Announced(notices: seq<Notice>, ending: bool): seq<nat> {
    if notices == [] then [] else Announced(notices[..|notices| - 1], ending) + Named(notices[|notices| - 1], ending)
  }

  /** Each of the ids that exceeds the first and all before it. */
  function Records(ids: seq<nat>, first: nat): seq<nat> {
    if ids == [] then []
    else
      var earlier, id := ids[..|ids| - 1], ids[|ids| - 1];
      Records(earlier, first) + (if Exceeds(id, first, earlier) then [id] else [])
  }

  predicate Increasing(ids: seq<nat>) {
    forall i, j :: 0 <= i < j < |ids| ==> ids[i] < ids[j]
  }

  lemma {:induction false} RecordsIncrease(ids: seq<nat>, first: nat)
    ensures Increasing(Records(ids, first)) && forall id <- Records(ids, first) :: id in ids
  {
    if ids != [] {
      var earlier, id := ids[..|ids| - 1], ids[|ids| - 1];
      RecordsIncrease(earlier, first);
      assert ids == earlier + [id];
      var before := Records(earlier, first);
      assert forall i :: 0 <= i < |before| ==> before[i] in before;
    }
  }

  lemma {:induction false} AnnouncedAppend(a: seq<Notice>, b: seq<Notice>, ending: bool)
    ensures Announced(a + b, ending) == Announced(a, ending) + Announced(b, ending)
  {
    if b == [] {
      assert a + b == a && Announced(a, ending) + [] == Announced(a, ending);
    } else {
      var init, last := b[..|b| - 1], b[|b| - 1];
      AnnouncedAppend(a, init, ending);
      assert (a + b)[..|a + b| - 1] == a + init;
      Associate(Announced(a, ending), Announced(init, ending), Named(last, ending));
    }
  }

  lemma Associate(x: seq<nat>, y: seq<nat>, z: seq<nat>)
    ensures (x + y) + z == x + (y + z)
  {
  }

  lemma AnnouncedIf(due: bool, n: Notice, ending: bool)
    ensures Announced(if due then [n] else [], ending) == if due then Named(n, ending) else []
  {
    assert [n][..0] == [];
  }

  lemma DueBidNamesNone(c: Cache, earlier: seq<Tick>, last: AuctionBids, ending: bool)
    ensures Announced(DueBid(c, earlier, last), ending) == []
  {
    if |last.bids| > 0 {
      AnnouncedIf(LatestBid(earlier, c.bid) != Some(last.bids[0]), NewBid(last.id, last.bids[0]), ending);
    }
  }

  /** The id of an auction tick when it should be announced. */
  function DueId(c: Cache, earlier: seq<Tick>, last: AuctionBids, now: int, ending: bool): seq<nat> {
    if (ending ==> last.endTime - now < 1200) && Exceeds(last.id, LastCached(c, ending), AuctionIds(earlier, ending)) then [last.id] else []
  }

  lemma DueAnnounced(c: Cache, earlier: seq<Tick>, last: AuctionBids, now: int, ending: bool)
    ensures Announced(DueNew(c, earlier, last) + DueBid(c, earlier, last) + DueEnd(c, earlier, last, now), ending) ==
            DueId(c, earlier, last, now, ending)
  {
    var isNew := Exceeds(last.id, c.auction, AuctionIds(earlier, false));
    var near := last.endTime - now < 1200 && Exceeds(last.id, c.endingSoon, AuctionIds(earlier, true));
    AnnouncedAppend(DueNew(c, earlier, last) + DueBid(c, earlier, last), DueEnd(c, earlier, last, now), ending);
    AnnouncedAppend(DueNew(c, earlier, last), DueBid(c, earlier, last), ending);
    AnnouncedIf(isNew, NewAuction(last.id), ending);
    DueBidNamesNone(c, earlier, last, ending);
    AnnouncedIf(near, AuctionEndingSoon(last.id), ending);
  }

  lemma RecordsLast(ids: seq<nat>, id: nat, first: nat)
    ensures Records(ids + [id], first) == Records(ids, first) + (if Exceeds(id, first, ids) then [id] else [])
  {
    assert (ids + [id])[..|ids|] == ids;
  }

  lemma RecordsTick(c: Cache, earlier: seq<Tick>, last: AuctionBids, now: int, ending: bool)
    ensures Records(AuctionIds(earlier + [OfAuction(last, now)], ending), LastCached(c, ending)) ==
            Records(AuctionIds(earlier, ending), LastCached(c, ending)) + DueId(c, earlier, last, now, ending)
  {
    var ids, first := AuctionIds(earlier, ending), LastCached(c, ending);
    AllDueLast(c, earlier, last, now);
    if ending ==> last.endTime - now < 1200 {
      assert AuctionIds(earlier + [OfAuction(last, now)], ending) == ids + [last.id];
      RecordsLast(ids, last.id, first);
    } else {
      assert AuctionIds(earlier + [OfAuction(last, now)], ending) == ids;
      assert Records(ids, first) + [] == Records(ids, first);
    }
  }

  /** The auctions that should be announced are the records. */
  predicate DueAreRecords(c: Cache, ticks: seq<Tick>, ending: bool) {
    Announced(AllDue(c, ticks), ending) == Records(AuctionIds(ticks, ending), LastCached(c, ending))
  }

  lemma AuctionDueAreRecords(c: Cache, earlier: seq<Tick>, last: AuctionBids, now: int, ending: bool)
    requires DueAreRecords(c, earlier, ending)
    ensures DueAreRecords(c, earlier + [OfAuction(last, now)], ending)
  {
    AllDueLast(c, earlier, last, now);
    AnnouncedAppend(AllDue(c, earlier), DueNew(c, earlier, last) + DueBid(c, earlier, last) + DueEnd(c, earlier, last, now), ending);
    DueAnnounced(c, earlier, last, now, ending);
    RecordsTick(c, earlier, last, now, ending);
  }

  lemma GovernanceDueAreRecords(c: Cache, earlier: seq<Tick>, proposals: seq<Proposal>, now: int, ending: bool)
    requires DueAreRecords(c, earlier, ending)
    ensures DueAreRecords(c, earlier + [OfGovernance(proposals, now)], ending)
  {
    var ticks := earlier + [OfGovernance(proposals, now)];
    assert ticks[..|earlier|] == earlier;
    assert AllDue(c, ticks) == AllDue(c, earlier) && AuctionIds(ticks, ending) == AuctionIds(earlier, ending);
  }

  lemma {:induction false} AllDueAnnounced(c: Cache, ticks: seq<Tick>, ending: bool)
    ensures DueAreRecords(c, ticks, ending)
  {
    if ticks != [] {
      var earlier, tick := ticks[..|ticks| - 1], ticks[|ticks| - 1];
      AllDueAnnounced(c, earlier, ending);
      assert ticks == earlier + [tick];
      match tick {
        case OfAuction(last, now) => AuctionDueAreRecords(c, earlier, last, now, ending);
        case OfGovernance(proposals, now) => GovernanceDueAreRecords(c, earlier, proposals, now, ending);
      }
    }
  }

  /**
   Over any run of ticks the auctions announced as new are, in order, those whose id exceeds the cached
   one and all before, and so are those announced as ending soon among the ticks near the end; so each
   is announced once.
   */
  lemma AuctionsAnnouncedOnce(c: Cache, ticks: seq<Tick>, ending: bool)
    ensures Announced(OfAuctions(Run(Bot(c, []), ticks).trace), ending) == Records(AuctionIds(ticks, ending), LastCached(c, ending))
    ensures Increasing(Announced(OfAuctions(Run(Bot(c, []), ticks).trace), ending))
  {
    AuctionNoticesExact(c, ticks);
    AllDueAnnounced(c, ticks, ending);
    RecordsIncrease(AuctionIds(ticks, ending), LastCached(c, ending));
  }

  // ---------- votes are announced once ----------

  /** How often a notice occurs in a trace. */
  function Times(trace: seq<Notice>, notice: Notice): nat {
    multiset(trace)[notice]
  }

  lemma TimesAppend(a: seq<Notice>, b: seq<Notice>, notice: Notice)
    ensures Times(a + b, notice) == Times(a, notice) + Times(b, notice)
  {
    assert multiset(a + b) == multiset(a) + multiset(b);
  }

  /** The vote is among the votes, with a positive weight. */
  predicate Weighs(votes: seq<Vote>, vote: nat) {
    exists v <- votes :: v.id == vote && v.votes > 0
  }

  lemma {:induction false} NewVotesCount(cached: seq<nat>, votes: seq<Vote>, proposal: nat, vote: nat)
    requires Distinct(VoteIds(votes))
    ensures Times(VoteNotices(proposal, NewVotes(cached, votes)), GovernanceVote(proposal, vote)) ==
            if vote !in cached && Weighs(votes, vote) then 1 else 0
  {
    if votes != [] {
      var n, last := |votes| - 1, votes[|votes| - 1];
      var before := NewVotes(cached, votes[..n]);
      assert VoteIds(votes)[..n] == VoteIds(votes[..n]);
      assert votes == votes[..n] + [last];
      NewVotesCount(cached, votes[..n], proposal, vote);
      LastIsNew(votes);
      if last.id !in cached && last.votes > 0 {
        assert VoteNotices(proposal, before + [last]) == VoteNotices(proposal, before) + [GovernanceVote(proposal, last.id)];
        TimesAppend(VoteNotices(proposal, before), [GovernanceVote(proposal, last.id)], GovernanceVote(proposal, vote));
      } else {
        assert before + [] == before;
      }
    }
  }

  lemma LastIsNew(votes: seq<Vote>)
    requires votes != [] && Distinct(VoteIds(votes))
    ensures !Weighs(votes[..|votes| - 1], votes[|votes| - 1].id)
  {
    var n := |votes| - 1;
    forall v | v in votes[..n]
      ensures v.id != votes[n].id
    {
      var i :| 0 <= i < n && votes[i] == v;
      assert VoteIds(votes)[..n][i] == v.id;
    }
  }

  lemma TimesNotify(b: Bot, told: Notice, notice: Notice)
    ensures Times(b.Notify(told).trace, notice) == Times(b.trace, notice) + (if told == notice then 1 else 0)
  {
    TimesAppend(b.trace, [told], notice);
  }

  /** Whether a snapshot that follows those cached makes the bot announce a vote. */
  predicate Announces(cached: map<nat, Proposal>, p: Proposal, proposal: nat, vote: nat) {
    p.id == proposal && p.id in cached && vote !in VoteIds(cached[p.id].votes) && Weighs(p.votes, vote)
  }

  lemma ChangesCount(b: Bot, cached: Proposal, p: Proposal, now: int, notice: Notice)
    requires notice.GovernanceVote? && (p.id == notice.proposal ==> Distinct(VoteIds(p.votes)))
    ensures Times(Changes(b, cached, p, now).trace, notice) ==
            Times(b.trace, notice) +
            (if p.id == notice.proposal && notice.vote !in VoteIds(cached.votes) && Weighs(p.votes, notice.vote) then 1 else 0)
  {
    var b1 := if cached.status != p.status then b.Notify(UpdatedStatus(p.id, p.status)) else b;
    var votes := VoteNotices(p.id, ExtractNewVotes(cached, p));
    TimesNotify(b, UpdatedStatus(p.id, p.status), notice);
    TimesAppend(b1.trace, votes, notice);
    TimesNotify(b1.(trace := b1.trace + votes), AtRiskOfExpiry(p.id), notice);
    if p.id == notice.proposal {
      NewVotesCount(VoteIds(cached.votes), p.votes, p.id, notice.vote);
    } else {
      OtherNotices(p.id, ExtractNewVotes(cached, p), notice);
    }
  }

  lemma StepCount(b: Bot, p: Proposal, now: int, notice: Notice)
    requires notice.GovernanceVote? && (p.id == notice.proposal ==> Distinct(VoteIds(p.votes)))
    ensures ProposalStep(b, p, now).cache.proposals == b.cache.proposals[p.id := p]
    ensures Times(ProposalStep(b, p, now).trace, notice) ==
            Times(b.trace, notice) + (if Announces(b.cache.proposals, p, notice.proposal, notice.vote) then 1 else 0)
  {
    if p.id in b.cache.proposals {
      ChangesCount(b, b.cache.proposals[p.id], p, now, notice);
    } else {
      TimesNotify(b, NewProposal(p.id), notice);
    }
  }

  lemma OtherNotices(proposal: nat, votes: seq<Vote>, notice: Notice)
    requires notice.GovernanceVote? && notice.proposal != proposal
    ensures Times(VoteNotices(proposal, votes), notice) == 0
  {
    assert notice !in VoteNotices(proposal, votes);
  }

  /** A snapshot that keeps the votes of another: its ids are distinct, and no vote is lost or changed. */
  predicate Grows(before: Proposal, after: Proposal) {
    Distinct(VoteIds(after.votes)) && forall v <- before.votes :: v in after.votes
  }

  /** The proposals a run of ticks reads, in the order the bot processes them. */
  function Snapshots(ticks: seq<Tick>): seq<Proposal> {
    if ticks == [] then []
    else
      var last := ticks[|ticks| - 1];
      Snapshots(ticks[..|ticks| - 1]) + (if last.OfGovernance? then last.proposals else [])
  }

  /** The latest of the snapshots of each proposal, on top of those cached at the start. */
  function Latest(first: map<nat, Proposal>, snapshots: seq<Proposal>): map<nat, Proposal> {
    if snapshots == [] then first
    else
      var last := snapshots[|snapshots| - 1];
      Latest(first, snapshots[..|snapshots| - 1])[last.id := last]
  }

  /** The snapshot of a proposal that is cached first. */
  function Earliest(first: map<nat, Proposal>, snapshots: seq<Proposal>, proposal: nat): (r: Option<Proposal>)
    ensures r.Some? <==> proposal in Latest(first, snapshots)
  {
    if snapshots == [] then if proposal in first then Some(first[proposal]) else None
    else
      var last := snapshots[|snapshots| - 1];
      var before := Earliest(first, snapshots[..|snapshots| - 1], proposal);
      if before.None? && last.id == proposal then Some(last) else before
  }

  /** Each snapshot of a proposal lists distinct votes and keeps those of the snapshot before. */
  predicate VotesGrow(first: map<nat, Proposal>, snapshots: seq<Proposal>, proposal: nat) {
    snapshots == [] ||
    (var before, last := Latest(first, snapshots[..|snapshots| - 1]), snapshots[|snapshots| - 1];
     && VotesGrow(first, snapshots[..|snapshots| - 1], proposal)
     && (last.id == proposal ==>
         Distinct(VoteIds(last.votes)) && (proposal in before ==> Grows(before[proposal], last))))
  }

  lemma VoteStays(before: Proposal, after: Proposal, vote: nat)
    requires forall v <- before.votes :: v in after.votes
    ensures vote in VoteIds(before.votes) ==> vote in VoteIds(after.votes)
    ensures Weighs(before.votes, vote) ==> Weighs(after.votes, vote)
  {
    if vote in VoteIds(before.votes) {
      var i :| 0 <= i < |before.votes| && VoteIds(before.votes)[i] == vote;
      assert before.votes[i] in after.votes;
      var j :| 0 <= j < |after.votes| && after.votes[j] == before.votes[i];
      assert VoteIds(after.votes)[j] == vote;
    }
    if v :| v in before.votes && v.id == vote && v.votes > 0 {
      assert v in after.votes;
    }
  }

  /** A vote that was there before weighs the same after. */
  lemma SameWeight(before: Proposal, after: Proposal, vote: nat)
    requires Grows(before, after) && vote in VoteIds(before.votes)
    ensures Weighs(after.votes, vote) <==> Weighs(before.votes, vote)
  {
    var i :| 0 <= i < |before.votes| && VoteIds(before.votes)[i] == vote;
    var v := before.votes[i];
    assert v in before.votes && v in after.votes;
    DistinctMeans(VoteIds(after.votes));
    if w :| w in after.votes && w.id == vote && w.votes > 0 {
      var j :| 0 <= j < |after.votes| && after.votes[j] == v;
      var k :| 0 <= k < |after.votes| && after.votes[k] == w;
      assert VoteIds(after.votes)[j] == VoteIds(after.votes)[k];
      assert w == v;
    }
  }

  /**
   How often a vote should have been announced: once if its weight is positive and it was not in the
   proposal's first cached snapshot, and never otherwise.
   */
  function Due(first: map<nat, Proposal>, snapshots: seq<Proposal>, proposal: nat, vote: nat): nat {
    match Earliest(first, snapshots, proposal)
    case None => 0
    case Some(earliest) =>
      if vote !in VoteIds(earliest.votes) && Weighs(Latest(first, snapshots)[proposal].votes, vote) then 1 else 0
  }

  /** The bot has cached the latest snapshots, and announced the vote as often as it should. */
  ghost predicate Told(b: Bot, first: map<nat, Proposal>, snapshots: seq<Proposal>, notice: Notice)
    requires notice.GovernanceVote?
  {
    && b.cache.proposals == Latest(first, snapshots)
    && Times(b.trace, notice) == Due(first, snapshots, notice.proposal, notice.vote)
  }

  /** A vote of the earliest snapshot is among those of the latest. */
  lemma {:induction false} EarliestStays(first: map<nat, Proposal>, snapshots: seq<Proposal>, proposal: nat, vote: nat)
    requires VotesGrow(first, snapshots, proposal) && proposal in Latest(first, snapshots)
    ensures vote in VoteIds(Earliest(first, snapshots, proposal).value.votes) ==>
              vote in VoteIds(Latest(first, snapshots)[proposal].votes)
  {
    if snapshots != [] {
      var init, last := snapshots[..|snapshots| - 1], snapshots[|snapshots| - 1];
      if proposal in Latest(first, init) {
        EarliestStays(first, init, proposal, vote);
        if last.id == proposal {
          VoteStays(Latest(first, init)[proposal], last, vote);
        }
      }
    }
  }

  lemma DueStep(first: map<nat, Proposal>, snapshots: seq<Proposal>, p: Proposal, proposal: nat, vote: nat)
    requires VotesGrow(first, snapshots + [p], proposal)
    ensures p.id == proposal ==> Distinct(VoteIds(p.votes))
    ensures Latest(first, snapshots + [p]) == Latest(first, snapshots)[p.id := p]
    ensures Due(first, snapshots + [p], proposal, vote) ==
            Due(first, snapshots, proposal, vote) + (if Announces(Latest(first, snapshots), p, proposal, vote) then 1 else 0)
  {
    assert (snapshots + [p])[..|snapshots|] == snapshots;
    WeighsListed(p.votes, vote);
    if p.id == proposal && p.id in Latest(first, snapshots) {
      var cached := Latest(first, snapshots)[p.id];
      EarliestStays(first, snapshots, p.id, vote);
      VoteStays(cached, p, vote);
      WeighsListed(cached.votes, vote);
      if vote in VoteIds(cached.votes) {
        SameWeight(cached, p, vote);
      }
    }
  }

  lemma {:induction false} VotesGrowPrefix(first: map<nat, Proposal>, a: seq<Proposal>, b: seq<Proposal>, proposal: nat)
    requires VotesGrow(first, a + b, proposal)
    ensures VotesGrow(first, a, proposal)
  {
    if b == [] {
      assert a + b == a;
    } else {
      assert (a + b)[..|a + b| - 1] == a + b[..|b| - 1];
      VotesGrowPrefix(first, a, b[..|b| - 1], proposal);
    }
  }

  lemma {:induction false} GovernanceTells(b: Bot, proposals: seq<Proposal>, now: int, first: map<nat, Proposal>, snapshots: seq<Proposal>, notice: Notice)
    requires notice.GovernanceVote? && VotesGrow(first, snapshots + proposals, notice.proposal) && Told(b, first, snapshots, notice)
    ensures Told(GovernanceTick(b, proposals, now), first, snapshots + proposals, notice)
  {
    if proposals == [] {
      assert snapshots + proposals == snapshots;
    } else {
      var init, last := proposals[..|proposals| - 1], proposals[|proposals| - 1];
      assert snapshots + proposals == snapshots + init + [last];
      VotesGrowPrefix(first, snapshots + init, [last], notice.proposal);
      GovernanceTells(b, init, now, first, snapshots, notice);
      DueStep(first, snapshots + init, last, notice.proposal, notice.vote);
      StepCount(GovernanceTick(b, init, now), last, now, notice);
    }
  }

  /** The auction tick leaves alone what the governance tick keeps. */
  predicate SameProposals(c: Cache, c': Cache) {
    c.proposals == c'.proposals && c.warned == c'.warned
  }

  lemma DiscoverTellsNoOther(b: Bot, last: AuctionBids, notice: Notice)
    requires !notice.NewAuction?
    ensures SameProposals(Discover(b, last).cache, b.cache) && Times(Discover(b, last).trace, notice) == Times(b.trace, notice)
  {
    TimesNotify(b.(cache := b.cache.(auction := last.id)), NewAuction(last.id), notice);
  }

  lemma ShowBidTellsNoOther(b: Bot, last: AuctionBids, notice: Notice)
    requires !notice.NewBid?
    ensures SameProposals(ShowBid(b, last).cache, b.cache) && Times(ShowBid(b, last).trace, notice) == Times(b.trace, notice)
  {
    if |last.bids| > 0 {
      TimesNotify(b.(cache := b.cache.(bid := Some(last.bids[0]))), NewBid(last.id, last.bids[0]), notice);
    }
  }

  lemma WarnEndingTellsNoOther(b: Bot, last: AuctionBids, now: int, notice: Notice)
    requires !notice.AuctionEndingSoon?
    ensures SameProposals(WarnEnding(b, last, now).cache, b.cache) && Times(WarnEnding(b, last, now).trace, notice) == Times(b.trace, notice)
  {
    TimesNotify(b.(cache := b.cache.(endingSoon := last.id)), AuctionEndingSoon(last.id), notice);
  }

  lemma AuctionTickTells(b: Bot, last: AuctionBids, now: int, notice: Notice)
    requires !notice.NewAuction? && !notice.NewBid? && !notice.AuctionEndingSoon?
    ensures var after := AuctionTick(b, last, now);
            SameProposals(after.cache, b.cache) && Times(after.trace, notice) == Times(b.trace, notice)
  {
    DiscoverTellsNoOther(b, last, notice);
    ShowBidTellsNoOther(Discover(b, last), last, notice);
    WarnEndingTellsNoOther(ShowBid(Discover(b, last), last), last, now, notice);
  }

  /**
   Over any run of ticks, if a proposal's vote lists only grow, each of its votes with positive weight
   that was not in its first cached snapshot is announced exactly once, and no other vote of it ever is.
   */
  lemma {:induction false} EachVoteOnce(c: Cache, ticks: seq<Tick>, notice: Notice)
    requires notice.GovernanceVote? && VotesGrow(c.proposals, Snapshots(ticks), notice.proposal)
    ensures Told(Run(Bot(c, []), ticks), c.proposals, Snapshots(ticks), notice)
  {
    if ticks == [] {
      if notice.proposal in c.proposals {
        WeighsListed(c.proposals[notice.proposal].votes, notice.vote);
      }
    } else {
      var init, tick := ticks[..|ticks| - 1], ticks[|ticks| - 1];
      var mid := Run(Bot(c, []), init);
      VotesGrowPrefix(c.proposals, Snapshots(init), if tick.OfGovernance? then tick.proposals else [], notice.proposal);
      EachVoteOnce(c, init, notice);
      match tick {
        case OfAuction(last, now) =>
          AuctionTickTells(mid, last, now, notice);
          assert Snapshots(ticks) == Snapshots(init);
        case OfGovernance(proposals, now) => GovernanceTells(mid, proposals, now, c.proposals, Snapshots(init), notice);
      }
    }
  }

  lemma WeighsListed(votes: seq<Vote>, vote: nat)
    ensures Weighs(votes, vote) ==> vote in VoteIds(votes)
  {
    if v :| v in votes && v.id == vote && v.votes > 0 {
      var i :| 0 <= i < |votes| && votes[i] == v;
      assert VoteIds(votes)[i] == vote;
    }
  }

  // ---------- proposals are announced once, and warned about once ----------

  /** A proposal was announced as new once if it has been cached since the start, and its expiry once if that was recorded since. */
  ghost predicate Once(c: Cache, b: Bot, proposal: nat) {
    && (proposal in c.proposals ==> proposal in b.cache.proposals)
    && (proposal in c.warned ==> proposal in b.cache.warned)
    && Times(b.trace, NewProposal(proposal)) == (if proposal in b.cache.proposals && proposal !in c.proposals then 1 else 0)
    && Times(b.trace, AtRiskOfExpiry(proposal)) == (if proposal in b.cache.warned && proposal !in c.warned then 1 else 0)
  }

  lemma VotesTellNothingElse(b: Bot, proposal: nat, votes: seq<Vote>, notice: Notice)
    requires !notice.GovernanceVote?
    ensures Times(b.trace + VoteNotices(proposal, votes), notice) == Times(b.trace, notice)
  {
    TimesAppend(b.trace, VoteNotices(proposal, votes), notice);
    assert notice !in VoteNotices(proposal, votes);
  }

  /** What a known proposal makes the bot announce, other than votes. */
  lemma ChangesTell(b: Bot, cached: Proposal, p: Proposal, now: int, notice: Notice)
    requires !notice.GovernanceVote?
    ensures Times(Changes(b, cached, p, now).trace, notice) ==
            Times(b.trace, notice) + (if cached.status != p.status && notice == UpdatedStatus(p.id, p.status) then 1 else 0)
            + (if IsAtRiskOfExpiry(p, now) && p.id !in b.cache.warned && notice == AtRiskOfExpiry(p.id) then 1 else 0)
  {
    var b1 := if cached.status != p.status then b.Notify(UpdatedStatus(p.id, p.status)) else b;
    var votes := ExtractNewVotes(cached, p);
    TimesNotify(b, UpdatedStatus(p.id, p.status), notice);
    VotesTellNothingElse(b1, p.id, votes, notice);
    TimesNotify(b1.(trace := b1.trace + VoteNotices(p.id, votes)), AtRiskOfExpiry(p.id), notice);
  }

  /** And what it leaves in the caches. */
  lemma ChangesCache(b: Bot, cached: Proposal, p: Proposal, now: int)
    ensures Changes(b, cached, p, now).cache ==
            b.cache.(warned := b.cache.warned + (if IsAtRiskOfExpiry(p, now) then {p.id} else {}))
  {
    assert b.cache.warned + {} == b.cache.warned;
    assert p.id in b.cache.warned ==> b.cache.warned + {p.id} == b.cache.warned;
  }

  lemma ChangesOnce(b: Bot, cached: Proposal, p: Proposal, now: int, proposal: nat)
    ensures var after := Changes(b, cached, p, now);
            && after.cache.proposals == b.cache.proposals && b.cache.warned <= after.cache.warned
            && Times(after.trace, NewProposal(proposal)) == Times(b.trace, NewProposal(proposal))
            && Times(after.trace, AtRiskOfExpiry(proposal)) ==
               Times(b.trace, AtRiskOfExpiry(proposal)) + (if proposal in after.cache.warned && proposal !in b.cache.warned then 1 else 0)
  {
    ChangesTell(b, cached, p, now, NewProposal(proposal));
    ChangesTell(b, cached, p, now, AtRiskOfExpiry(proposal));
    ChangesCache(b, cached, p, now);
  }

  lemma {:induction false} GovernanceOnce(c: Cache, b: Bot, proposals: seq<Proposal>, now: int, proposal: nat)
    requires Once(c, b, proposal)
    ensures Once(c, GovernanceTick(b, proposals, now), proposal)
  {
    if proposals != [] {
      var mid, p := GovernanceTick(b, proposals[..|proposals| - 1], now), proposals[|proposals| - 1];
      GovernanceOnce(c, b, proposals[..|proposals| - 1], now, proposal);
      if p.id in mid.cache.proposals {
        ChangesOnce(mid, mid.cache.proposals[p.id], p, now, proposal);
      } else {
        TimesNotify(mid, NewProposal(p.id), NewProposal(proposal));
        TimesNotify(mid, NewProposal(p.id), AtRiskOfExpiry(proposal));
      }
    }
  }

  /** Over any run of ticks each proposal is announced as new at most once, and its expiry is warned of at most once. */
  lemma {:induction false} ProposalsAnnouncedOnce(c: Cache, ticks: seq<Tick>, proposal: nat)
    ensures Once(c, Run(Bot(c, []), ticks), proposal)
  {
    if ticks != [] {
      var mid, tick := Run(Bot(c, []), ticks[..|ticks| - 1]), ticks[|ticks| - 1];
      ProposalsAnnouncedOnce(c, ticks[..|ticks| - 1], proposal);
      match tick {
        case OfAuction(last, now) =>
          AuctionTickTells(mid, last, now, NewProposal(proposal));
          AuctionTickTells(mid, last, now, AtRiskOfExpiry(proposal));
        case OfGovernance(proposals, now) => GovernanceOnce(c, mid, proposals, now, proposal);
      }
    }
  }

  // ---------- status changes and warnings of expiry ----------

  /** A snapshot of a proposal, and when it was read. */
  datatype Reading = Reading(proposal: Proposal, now: int)

  function ReadAt(proposals: seq<Proposal>, now: int): (readings: seq<Reading>)
    ensures |readings| == |proposals|
  {
    seq(|proposals|, i requires 0 <= i < |proposals| => Reading(proposals[i], now))
  }

  /** The snapshots that a run of ticks reads, in the order the bot processes them. */
  function Readings(ticks: seq<Tick>): seq<Reading> {
    if ticks == [] then []
    else
      var last := ticks[|ticks| - 1];
      Readings(ticks[..|ticks| - 1]) + (if last.OfGovernance? then ReadAt(last.proposals, last.at) else [])
  }

  /** The status of a proposal as it was read last, or cached at the start. */
  function LastStatus(c: Cache, readings: seq<Reading>, proposal: nat): Option<Entities.Status> {
    if readings == [] then if proposal in c.proposals then Some(c.proposals[proposal].status) else None
    else
      var last := readings[|readings| - 1].proposal;
      if last.id == proposal then Some(last.status) else LastStatus(c, readings[..|readings| - 1], proposal)
  }

  /** How often a proposal was read with a status after it was read, or cached, with another. */
  function ChangesTo(c: Cache, readings: seq<Reading>, proposal: nat, status: Entities.Status): nat {
    if readings == [] then 0
    else
      var earlier, last := readings[..|readings| - 1], readings[|readings| - 1].proposal;
      var before := LastStatus(c, earlier, proposal);
      ChangesTo(c, earlier, proposal, status)
      + (if last.id == proposal && last.status == status && before.Some? && before.value != status then 1 else 0)
  }

  /** Queued, and expiring within two days: 14 days after the ETA. */
  predicate ExpiresSoon(r: Reading) {
    r.proposal.status == Entities.QUEUED && 0 < r.proposal.executionETA + 1209600 - r.now <= 172800
  }

  /** A proposal that was known when it was read as expiring soon. */
  predicate SeenExpiring(c: Cache, readings: seq<Reading>, proposal: nat) {
    readings != [] &&
    var earlier, last := readings[..|readings| - 1], readings[|readings| - 1];
    SeenExpiring(c, earlier, proposal) ||
    (last.proposal.id == proposal && ExpiresSoon(last) && LastStatus(c, earlier, proposal).Some?)
  }

  /** The caches and the notices about a proposal's status and expiry are what its readings call for. */
  ghost predicate ToldOf(b: Bot, c: Cache, readings: seq<Reading>, proposal: nat, status: Entities.Status) {
    && (if proposal in b.cache.proposals then LastStatus(c, readings, proposal) == Some(b.cache.proposals[proposal].status)
        else LastStatus(c, readings, proposal) == None)
    && (proposal in b.cache.warned <==> proposal in c.warned || SeenExpiring(c, readings, proposal))
    && Times(b.trace, UpdatedStatus(proposal, status)) == ChangesTo(c, readings, proposal, status)
    && Times(b.trace, AtRiskOfExpiry(proposal)) == (if proposal !in c.warned && SeenExpiring(c, readings, proposal) then 1 else 0)
  }

  lemma OneReading(c: Cache, readings: seq<Reading>, r: Reading, proposal: nat, status: Entities.Status)
    ensures var all, before := readings + [r], LastStatus(c, readings, proposal);
            && LastStatus(c, all, proposal) == (if r.proposal.id == proposal then Some(r.proposal.status) else before)
            && ChangesTo(c, all, proposal, status) ==
               ChangesTo(c, readings, proposal, status)
               + (if r.proposal.id == proposal && r.proposal.status == status && before.Some? && before.value != status then 1 else 0)
            && (SeenExpiring(c, all, proposal) <==>
                SeenExpiring(c, readings, proposal) || (r.proposal.id == proposal && ExpiresSoon(r) && before.Some?))
  {
    assert (readings + [r])[..|readings|] == readings;
  }

  /** What one snapshot makes the bot remember and announce of a proposal's status and expiry. */
  predicate Tells(b: Bot, p: Proposal, now: int, after: Bot, proposal: nat, status: Entities.Status) {
    var known := p.id == proposal && p.id in b.cache.proposals;
    && after.cache.proposals == b.cache.proposals[p.id := p]
    && (proposal in after.cache.warned <==> proposal in b.cache.warned || (known && ExpiresSoon(Reading(p, now))))
    && Times(after.trace, UpdatedStatus(proposal, status)) ==
       Times(b.trace, UpdatedStatus(proposal, status))
       + (if known && b.cache.proposals[p.id].status != p.status && p.status == status then 1 else 0)
    && Times(after.trace, AtRiskOfExpiry(proposal)) ==
       Times(b.trace, AtRiskOfExpiry(proposal))
       + (if known && ExpiresSoon(Reading(p, now)) && proposal !in b.cache.warned then 1 else 0)
  }

  lemma KnownTells(b: Bot, p: Proposal, now: int, proposal: nat, status: Entities.Status)
    requires p.id in b.cache.proposals
    ensures Tells(b, p, now, ProposalStep(b, p, now), proposal, status)
  {
    var cached := b.cache.proposals[p.id];
    ChangesTell(b, cached, p, now, UpdatedStatus(proposal, status));
    ChangesTell(b, cached, p, now, AtRiskOfExpiry(proposal));
    ChangesCache(b, cached, p, now);
  }

  lemma NewTells(b: Bot, p: Proposal, now: int, proposal: nat, status: Entities.Status)
    requires p.id !in b.cache.proposals
    ensures Tells(b, p, now, ProposalStep(b, p, now), proposal, status)
  {
    TimesNotify(b, NewProposal(p.id), UpdatedStatus(proposal, status));
    TimesNotify(b, NewProposal(p.id), AtRiskOfExpiry(proposal));
  }

  lemma ReadingTold(b: Bot, c: Cache, readings: seq<Reading>, p: Proposal, now: int, proposal: nat, status: Entities.Status)
    requires ToldOf(b, c, readings, proposal, status)
    ensures ToldOf(ProposalStep(b, p, now), c, readings + [Reading(p, now)], proposal, status)
  {
    OneReading(c, readings, Reading(p, now), proposal, status);
    if p.id in b.cache.proposals {
      KnownTells(b, p, now, proposal, status);
    } else {
      NewTells(b, p, now, proposal, status);
    }
  }

  lemma LastReading(readings: seq<Reading>, proposals: seq<Proposal>, now: int)
    requires proposals != []
    ensures var n := |proposals| - 1;
            readings + ReadAt(proposals, now) == readings + ReadAt(proposals[..n], now) + [Reading(proposals[n], now)]
  {
  }

  lemma {:induction false} GovernanceTellsOf(b: Bot, c: Cache, readings: seq<Reading>, proposals: seq<Proposal>, now: int,
                                             proposal: nat, status: Entities.Status)
    requires ToldOf(b, c, readings, proposal, status)
    ensures ToldOf(GovernanceTick(b, proposals, now), c, readings + ReadAt(proposals, now), proposal, status)
  {
    if proposals == [] {
      assert readings + ReadAt(proposals, now) == readings;
    } else {
      var init, p := proposals[..|proposals| - 1], proposals[|proposals| - 1];
      LastReading(readings, proposals, now);
      GovernanceTellsOf(b, c, readings, init, now, proposal, status);
      ReadingTold(GovernanceTick(b, init, now), c, readings + ReadAt(init, now), p, now, proposal, status);
    }
  }

  lemma AuctionTellsNothingOf(b: Bot, c: Cache, readings: seq<Reading>, last: AuctionBids, now: int, proposal: nat, status: Entities.Status)
    requires ToldOf(b, c, readings, proposal, status)
    ensures ToldOf(AuctionTick(b, last, now), c, readings, proposal, status)
  {
    AuctionTickTells(b, last, now, UpdatedStatus(proposal, status));
    AuctionTickTells(b, last, now, AtRiskOfExpiry(proposal));
  }

  /**
   Over any run of ticks: a status is announced each time a known proposal is read with it after
   another, and an expiry once, when a known proposal is first read within two days of it.
   */
  lemma {:induction false} StatusAndExpiryExact(c: Cache, ticks: seq<Tick>, proposal: nat, status: Entities.Status)
    ensures ToldOf(Run(Bot(c, []), ticks), c, Readings(ticks), proposal, status)
  {
    if ticks != [] {
      var init, tick := ticks[..|ticks| - 1], ticks[|ticks| - 1];
      var mid := Run(Bot(c, []), init);
      StatusAndExpiryExact(c, init, proposal, status);
      match tick {
        case OfAuction(last, now) =>
          AuctionTellsNothingOf(mid, c, Readings(init), last, now, proposal, status);
          assert Readings(ticks) == Readings(init);
        case OfGovernance(proposals, now) => GovernanceTellsOf(mid, c, Readings(init), proposals, now, proposal, status);
      }
    }
  }
}
