/**
 A governance tick as it runs: one task for each proposal, all started at once, which take turns
 wherever they wait for the cache or for a handler. Whatever the turns, the cache ends as if the
 proposals had been processed one after the other, and the same is announced.
 */
module BotTasks {
  import opened Bots
  import Entities
  import opened Lists
  import opened Wrappers

  /** Where a task waits. */
  datatype Task =
    | Start
    | Loaded(cached: Option<Proposal>)
    | StatusTold(before: Proposal)
    | AskingWarned
    | Warning
    | Recording
    | Saving
    | Done

  function Rank(t: Task): nat {
    match t
    case Start => 7
    case Loaded(_) => 6
    case StatusTold(_) => 5
    case AskingWarned => 4
    case Warning => 3
    case Recording => 2
    case Saving => 1
    case Done => 0
  }

  function Cached(b: Bot, id: nat): Option<Proposal> {
    if id in b.cache.proposals then Some(b.cache.proposals[id]) else None
  }

  /** One turn of a task: from one wait to the next. The notices about votes are not waited for. */
  function Advance(b: Bot, p: Proposal, now: int, t: Task): (Bot, Task) {
    match t
    case Start => (b, Loaded(Cached(b, p.id)))
    case Loaded(None) => (b.Notify(NewProposal(p.id)), Saving)
    case Loaded(Some(cached)) => (if cached.status != p.status then b.Notify(UpdatedStatus(p.id, p.status)) else b, StatusTold(cached))
    case StatusTold(cached) =>
      (b.(trace := b.trace + VoteNotices(p.id, ExtractNewVotes(cached, p))), if IsAtRiskOfExpiry(p, now) then AskingWarned else Saving)
    case AskingWarned => (b, if p.id in b.cache.warned then Saving else Warning)
    case Warning => (b.Notify(AtRiskOfExpiry(p.id)), Recording)
    case Recording => (b.(cache := b.cache.(warned := b.cache.warned + {p.id})), Saving)
    case Saving => (b.(cache := b.cache.(proposals := b.cache.proposals[p.id := p])), Done)
    case Done => (b, Done)
  }

  /** The rest of a task, when no other takes a turn. */
  function Alone(b: Bot, p: Proposal, now: int, t: Task): Bot
    decreases Rank(t)
  {
    if t.Done? then b
    else
      var (next, u) := Advance(b, p, now, t);
      Alone(next, p, now, u)
  }

  /** A task alone processes its proposal. */
  lemma AloneIsStep(b: Bot, p: Proposal, now: int)
    ensures Alone(b, p, now, Start) == ProposalStep(b, p, now)
  {
    FromSaving(b.Notify(NewProposal(p.id)), p, now);
    assert Alone(b, p, now, Start) == Alone(b, p, now, Loaded(Cached(b, p.id)));
    if p.id in b.cache.proposals {
      var cached := b.cache.proposals[p.id];
      var b1 := if cached.status != p.status then b.Notify(UpdatedStatus(p.id, p.status)) else b;
      FromStatusTold(b1, p, now, cached);
    }
  }

  lemma FromSaving(b: Bot, p: Proposal, now: int)
    ensures Alone(b, p, now, Saving) == b.(cache := b.cache.(proposals := b.cache.proposals[p.id := p]))
  {
    assert Advance(b, p, now, Saving).1 == Done;
  }

  lemma FromWarning(b: Bot, p: Proposal, now: int)
    ensures Alone(b, p, now, Warning) ==
            var b1 := b.Notify(AtRiskOfExpiry(p.id)).(cache := b.cache.(warned := b.cache.warned + {p.id}));
            b1.(cache := b1.cache.(proposals := b1.cache.proposals[p.id := p]))
  {
    var b1 := b.Notify(AtRiskOfExpiry(p.id));
    FromSaving(b1.(cache := b1.cache.(warned := b1.cache.warned + {p.id})), p, now);
    assert Alone(b, p, now, Warning) == Alone(b1, p, now, Recording);
  }

  lemma FromStatusTold(b: Bot, p: Proposal, now: int, cached: Proposal)
    ensures var b1 := b.(trace := b.trace + VoteNotices(p.id, ExtractNewVotes(cached, p)));
            var b2 := if IsAtRiskOfExpiry(p, now) && p.id !in b1.cache.warned then
                        b1.Notify(AtRiskOfExpiry(p.id)).(cache := b1.cache.(warned := b1.cache.warned + {p.id}))
                      else b1;
            Alone(b, p, now, StatusTold(cached)) == b2.(cache := b2.cache.(proposals := b2.cache.proposals[p.id := p]))
  {
    var b1 := b.(trace := b.trace + VoteNotices(p.id, ExtractNewVotes(cached, p)));
    FromSaving(b1, p, now);
    FromWarning(b1, p, now);
    if IsAtRiskOfExpiry(p, now) {
      assert Alone(b, p, now, StatusTold(cached)) == Alone(b1, p, now, AskingWarned);
    }
  }

  // ---------- what is seen of one proposal ----------

  /** The proposal a notice is about; notices about auctions are about none. */
  function Subject(n: Notice): Option<nat> {
    match n
    case NewProposal(id) => Some(id)
    case UpdatedStatus(id, _) => Some(id)
    case GovernanceVote(id, _) => Some(id)
    case AtRiskOfExpiry(id) => Some(id)
    case _ => None
  }

  datatype Seen = Seen(cached: Option<Proposal>, warned: bool, times: nat)

  /** What the caches have of one proposal, and how often one notice was given. */
  function See(b: Bot, id: nat, n: Notice): Seen {
    Seen(Cached(b, id), id in b.cache.warned, Times(b.trace, n))
  }

  lemma VotesAbout(proposal: nat, votes: seq<Vote>, n: Notice)
    requires Subject(n) != Some(proposal)
    ensures Times(VoteNotices(proposal, votes), n) == 0
  {
    assert n !in VoteNotices(proposal, votes);
  }

  /** A turn of a task is not seen from another proposal. */
  lemma OtherTurn(b: Bot, p: Proposal, now: int, t: Task, id: nat, n: Notice)
    requires p.id != id && Subject(n) != Some(p.id)
    ensures See(Advance(b, p, now, t).0, id, n) == See(b, id, n)
  {
    TimesNotify(b, NewProposal(p.id), n);
    TimesNotify(b, UpdatedStatus(p.id, p.status), n);
    TimesNotify(b, AtRiskOfExpiry(p.id), n);
    if t.StatusTold? {
      TimesAppend(b.trace, VoteNotices(p.id, ExtractNewVotes(t.before, p)), n);
      VotesAbout(p.id, ExtractNewVotes(t.before, p), n);
    }
  }

  /** A turn of a task depends on nothing but what is seen of its own proposal. */
  lemma OwnTurn(b: Bot, b': Bot, p: Proposal, now: int, t: Task, n: Notice)
    requires See(b, p.id, n) == See(b', p.id, n)
    ensures Advance(b, p, now, t).1 == Advance(b', p, now, t).1
    ensures See(Advance(b, p, now, t).0, p.id, n) == See(Advance(b', p, now, t).0, p.id, n)
  {
    TellSame(b, b', NewProposal(p.id), n);
    TellSame(b, b', UpdatedStatus(p.id, p.status), n);
    TellSame(b, b', AtRiskOfExpiry(p.id), n);
    if t.StatusTold? {
      TimesAppend(b.trace, VoteNotices(p.id, ExtractNewVotes(t.before, p)), n);
      TimesAppend(b'.trace, VoteNotices(p.id, ExtractNewVotes(t.before, p)), n);
    }
  }

  lemma TellSame(b: Bot, b': Bot, told: Notice, n: Notice)
    requires Times(b.trace, n) == Times(b'.trace, n)
    ensures Times(b.Notify(told).trace, n) == Times(b'.Notify(told).trace, n)
  {
    TimesNotify(b, told, n);
    TimesNotify(b', told, n);
  }

  lemma {:induction false} AloneSees(b: Bot, b': Bot, p: Proposal, now: int, t: Task, n: Notice)
    requires See(b, p.id, n) == See(b', p.id, n)
    ensures See(Alone(b, p, now, t), p.id, n) == See(Alone(b', p, now, t), p.id, n)
    decreases Rank(t)
  {
    if !t.Done? {
      OwnTurn(b, b', p, now, t, n);
      AloneSees(Advance(b, p, now, t).0, Advance(b', p, now, t).0, p, now, Advance(b, p, now, t).1, n);
    }
  }

  lemma {:induction false} AloneUnseen(b: Bot, p: Proposal, now: int, t: Task, id: nat, n: Notice)
    requires p.id != id && Subject(n) != Some(p.id)
    ensures See(Alone(b, p, now, t), id, n) == See(b, id, n)
    decreases Rank(t)
  {
    if !t.Done? {
      OtherTurn(b, p, now, t, id, n);
      AloneUnseen(Advance(b, p, now, t).0, p, now, Advance(b, p, now, t).1, id, n);
    }
  }

  // ---------- the tasks of a tick ----------

  datatype Tasks = Tasks(bot: Bot, at: seq<Task>)

  function Ids(proposals: seq<Proposal>): (ids: seq<nat>)
    ensures |ids| == |proposals|
  {
    seq(|proposals|, i requires 0 <= i < |proposals| => proposals[i].id)
  }

  function AllStart(n: nat): (at: seq<Task>)
    ensures |at| == n
  {
    seq(n, _ => Start)
  }

  function Turn(s: Tasks, proposals: seq<Proposal>, now: int, i: nat): (r: Tasks)
    requires |s.at| == |proposals| && i < |proposals|
    ensures |r.at| == |proposals|
  {
    var (next, t) := Advance(s.bot, proposals[i], now, s.at[i]);
    Tasks(next, s.at[i := t])
  }

  predicate IsSchedule(schedule: seq<nat>, n: nat) {
    forall k :: 0 <= k < |schedule| ==> schedule[k] < n
  }

  /** The turns of a schedule, which says who goes on each time. */
  function Turns(s: Tasks, proposals: seq<Proposal>, now: int, schedule: seq<nat>): (r: Tasks)
    requires |s.at| == |proposals| && IsSchedule(schedule, |proposals|)
    ensures |r.at| == |proposals|
  {
    if schedule == [] then s
    else Turn(Turns(s, proposals, now, schedule[..|schedule| - 1]), proposals, now, schedule[|schedule| - 1])
  }

  predicate Finished(s: Tasks) {
    forall t <- s.at :: t.Done?
  }

  /** A task that goes on alone from here ends, as seen from its proposal, as if it had been alone all the time. */
  lemma {:induction false} OneTask(b: Bot, proposals: seq<Proposal>, now: int, schedule: seq<nat>, i: nat, n: Notice)
    requires Distinct(Ids(proposals)) && IsSchedule(schedule, |proposals|) && i < |proposals| && Subject(n) == Some(proposals[i].id)
    ensures var s := Turns(Tasks(b, AllStart(|proposals|)), proposals, now, schedule);
            See(Alone(s.bot, proposals[i], now, s.at[i]), proposals[i].id, n) == See(ProposalStep(b, proposals[i], now), proposals[i].id, n)
  {
    if schedule == [] {
      AloneIsStep(b, proposals[i], now);
    } else {
      var before, j := Turns(Tasks(b, AllStart(|proposals|)), proposals, now, schedule[..|schedule| - 1]), schedule[|schedule| - 1];
      OneTask(b, proposals, now, schedule[..|schedule| - 1], i, n);
      if j != i {
        DistinctMeans(Ids(proposals));
        assert Ids(proposals)[i] != Ids(proposals)[j];
        OtherTurn(before.bot, proposals[j], now, before.at[j], proposals[i].id, n);
        AloneSees(before.bot, Turn(before, proposals, now, j).bot, proposals[i], now, before.at[i], n);
      }
    }
  }

  /** What no task is about does not change. */
  lemma {:induction false} NoTask(b: Bot, proposals: seq<Proposal>, now: int, schedule: seq<nat>, id: nat, n: Notice)
    requires IsSchedule(schedule, |proposals|) && id !in Ids(proposals)
    requires forall p <- proposals :: Subject(n) != Some(p.id)
    ensures See(Turns(Tasks(b, AllStart(|proposals|)), proposals, now, schedule).bot, id, n) == See(b, id, n)
  {
    if schedule != [] {
      var before, j := Turns(Tasks(b, AllStart(|proposals|)), proposals, now, schedule[..|schedule| - 1]), schedule[|schedule| - 1];
      NoTask(b, proposals, now, schedule[..|schedule| - 1], id, n);
      assert Ids(proposals)[j] == proposals[j].id;
      OtherTurn(before.bot, proposals[j], now, before.at[j], id, n);
    }
  }

  // ---------- one proposal after the other ----------

  lemma StepUnseen(b: Bot, p: Proposal, now: int, id: nat, n: Notice)
    requires p.id != id && Subject(n) != Some(p.id)
    ensures See(ProposalStep(b, p, now), id, n) == See(b, id, n)
  {
    AloneIsStep(b, p, now);
    AloneUnseen(b, p, now, Start, id, n);
  }

  lemma StepSees(b: Bot, b': Bot, p: Proposal, now: int, n: Notice)
    requires See(b, p.id, n) == See(b', p.id, n)
    ensures See(ProposalStep(b, p, now), p.id, n) == See(ProposalStep(b', p, now), p.id, n)
  {
    AloneIsStep(b, p, now);
    AloneIsStep(b', p, now);
    AloneSees(b, b', p, now, Start, n);
  }

  lemma {:induction false} NotInTick(b: Bot, proposals: seq<Proposal>, now: int, id: nat, n: Notice)
    requires id !in Ids(proposals) && forall p <- proposals :: Subject(n) != Some(p.id)
    ensures See(GovernanceTick(b, proposals, now), id, n) == See(b, id, n)
  {
    if proposals != [] {
      var init, last := proposals[..|proposals| - 1], proposals[|proposals| - 1];
      assert Ids(init) == Ids(proposals)[..|proposals| - 1] && Ids(proposals)[|proposals| - 1] == last.id;
      NotInTick(b, init, now, id, n);
      StepUnseen(GovernanceTick(b, init, now), last, now, id, n);
    }
  }

  lemma {:induction false} InTick(b: Bot, proposals: seq<Proposal>, now: int, i: nat, n: Notice)
    requires Distinct(Ids(proposals)) && i < |proposals| && Subject(n) == Some(proposals[i].id)
    ensures See(GovernanceTick(b, proposals, now), proposals[i].id, n) == See(ProposalStep(b, proposals[i], now), proposals[i].id, n)
  {
    var k := |proposals| - 1;
    var init, last := proposals[..k], proposals[k];
    assert Ids(init) == Ids(proposals)[..k] && Ids(proposals)[k] == last.id;
    if i < k {
      InTick(b, init, now, i, n);
      assert Ids(init)[i] == proposals[i].id;
      StepUnseen(GovernanceTick(b, init, now), last, now, proposals[i].id, n);
    } else {
      forall p | p in init
        ensures p.id != last.id
      {
        var j :| 0 <= j < k && init[j] == p;
        assert Ids(init)[j] == p.id;
      }
      NotInTick(b, init, now, last.id, n);
      StepSees(GovernanceTick(b, init, now), b, last, now, n);
    }
  }

  // ---------- the same in the end ----------

  /** The same caches, and the same notices as often, in whatever order. */
  ghost predicate Alike(b: Bot, b': Bot) {
    b.cache == b'.cache && multiset(b.trace) == multiset(b'.trace)
  }

  /** The caches that a governance tick leaves alone. */
  predicate SameAuction(b: Bot, b': Bot) {
    b.cache.auction == b'.cache.auction && b.cache.bid == b'.cache.bid && b.cache.endingSoon == b'.cache.endingSoon
  }

  lemma {:induction false} TurnsKeepAuction(s: Tasks, proposals: seq<Proposal>, now: int, schedule: seq<nat>)
    requires |s.at| == |proposals| && IsSchedule(schedule, |proposals|)
    ensures SameAuction(Turns(s, proposals, now, schedule).bot, s.bot)
  {
    if schedule != [] {
      TurnsKeepAuction(s, proposals, now, schedule[..|schedule| - 1]);
    }
  }

  lemma {:induction false} TickKeepsAuction(b: Bot, proposals: seq<Proposal>, now: int)
    ensures SameAuction(GovernanceTick(b, proposals, now), b)
  {
    if proposals != [] {
      TickKeepsAuction(b, proposals[..|proposals| - 1], now);
    }
  }

  lemma SeenAlike(b: Bot, b': Bot)
    requires SameAuction(b, b')
    requires forall id: nat, n :: Subject(n) == Some(id) ==> See(b, id, n) == See(b', id, n)
    requires forall n :: Subject(n).None? ==> Times(b.trace, n) == Times(b'.trace, n)
    ensures Alike(b, b')
  {
    forall id: nat
      ensures Cached(b, id) == Cached(b', id) && (id in b.cache.warned <==> id in b'.cache.warned)
    {
      assert See(b, id, NewProposal(id)) == See(b', id, NewProposal(id));
    }
    forall id: nat
      ensures id in b.cache.proposals <==> id in b'.cache.proposals
      ensures id in b.cache.proposals ==> b.cache.proposals[id] == b'.cache.proposals[id]
    {
      assert Cached(b, id) == Cached(b', id);
    }
    assert b.cache.proposals == b'.cache.proposals;
    assert b.cache.warned == b'.cache.warned;
    forall n
      ensures multiset(b.trace)[n] == multiset(b'.trace)[n]
    {
      assert Times(b.trace, n) == Times(b'.trace, n) by {
        if Subject(n).Some? {
          assert See(b, Subject(n).value, n) == See(b', Subject(n).value, n);
        }
      }
    }
  }

  /** What is seen in the end is what the proposals one after the other would show. */
  lemma TaskSees(b: Bot, proposals: seq<Proposal>, now: int, schedule: seq<nat>, id: nat, n: Notice)
    requires Distinct(Ids(proposals)) && IsSchedule(schedule, |proposals|)
    requires Finished(Turns(Tasks(b, AllStart(|proposals|)), proposals, now, schedule))
    requires Subject(n) == Some(id) || (Subject(n).None? && id !in Ids(proposals))
    ensures See(Turns(Tasks(b, AllStart(|proposals|)), proposals, now, schedule).bot, id, n) == See(GovernanceTick(b, proposals, now), id, n)
  {
    var s := Turns(Tasks(b, AllStart(|proposals|)), proposals, now, schedule);
    if id in Ids(proposals) {
      var i :| 0 <= i < |proposals| && Ids(proposals)[i] == id;
      OneTask(b, proposals, now, schedule, i, n);
      InTick(b, proposals, now, i, n);
      assert s.at[i] in s.at;
    } else {
      forall p | p in proposals
        ensures p.id != id
      {
        var i :| 0 <= i < |proposals| && proposals[i] == p;
        assert Ids(proposals)[i] == p.id;
      }
      NoTask(b, proposals, now, schedule, id, n);
      NotInTick(b, proposals, now, id, n);
    }
  }

  /** An id that is not in a list. */
  function Beyond(ids: seq<nat>): (r: nat)
    ensures forall id <- ids :: id < r
  {
    if ids == [] then 0
    else
      var before, last := Beyond(ids[..|ids| - 1]), ids[|ids| - 1];
      assert ids == ids[..|ids| - 1] + [last];
      if last < before then before else last + 1
  }

  /**
   Whatever turns the tasks of a governance tick take, once all have ended the caches are those of the
   proposals processed one after the other, and the same notices were given as often.
   */
  lemma AnyTurns(b: Bot, proposals: seq<Proposal>, now: int, schedule: seq<nat>)
    requires Distinct(Ids(proposals)) && IsSchedule(schedule, |proposals|)
    requires Finished(Turns(Tasks(b, AllStart(|proposals|)), proposals, now, schedule))
    ensures Alike(Turns(Tasks(b, AllStart(|proposals|)), proposals, now, schedule).bot, GovernanceTick(b, proposals, now))
  {
    var s, tick := Turns(Tasks(b, AllStart(|proposals|)), proposals, now, schedule), GovernanceTick(b, proposals, now);
    TurnsKeepAuction(Tasks(b, AllStart(|proposals|)), proposals, now, schedule);
    TickKeepsAuction(b, proposals, now);
    forall id: nat, n | Subject(n) == Some(id)
      ensures See(s.bot, id, n) == See(tick, id, n)
    {
      TaskSees(b, proposals, now, schedule, id, n);
    }
    forall n | Subject(n).None?
      ensures Times(s.bot.trace, n) == Times(tick.trace, n)
    {
      TaskSees(b, proposals, now, schedule, Beyond(Ids(proposals)), n);
    }
    SeenAlike(s.bot, tick);
  }

  // ---------- runs ----------

  /** A tick, with the turns of its tasks when it is a governance tick. */
  datatype Scheduled = Scheduled(tick: Tick, schedule: seq<nat>)

  function StartOf(b: Bot, proposals: seq<Proposal>): Tasks {
    Tasks(b, AllStart(|proposals|))
  }

  /** The tick reads each proposal once, and its turns bring every task to its end. */
  predicate RunsToEnd(b: Bot, e: Scheduled) {
    e.tick.OfGovernance? ==>
      && Distinct(Ids(e.tick.proposals)) && IsSchedule(e.schedule, |e.tick.proposals|)
      && Finished(Turns(StartOf(b, e.tick.proposals), e.tick.proposals, e.tick.at, e.schedule))
  }

  function ScheduledStep(b: Bot, e: Scheduled): Bot
    requires RunsToEnd(b, e)
  {
    match e.tick
    case OfAuction(last, now) => AuctionTick(b, last, now)
    case OfGovernance(proposals, now) => Turns(StartOf(b, proposals), proposals, now, e.schedule).bot
  }

  /** Ticks that do not overlap, with tasks that do; `None` when some tick is left unfinished. */
  function ScheduledRun(b: Bot, es: seq<Scheduled>): Option<Bot> {
    if es == [] then Some(b)
    else
      var before :- ScheduledRun(b, es[..|es| - 1]);
      if RunsToEnd(before, es[|es| - 1]) then Some(ScheduledStep(before, es[|es| - 1])) else None
  }

  function TicksOf(es: seq<Scheduled>): (ticks: seq<Tick>)
    ensures |ticks| == |es|
  {
    seq(|es|, i requires 0 <= i < |es| => es[i].tick)
  }

  lemma NotifyAlike(b: Bot, b': Bot, n: Notice)
    requires Alike(b, b')
    ensures Alike(b.Notify(n), b'.Notify(n))
  {
  }

  lemma AuctionAlike(b: Bot, b': Bot, last: AuctionBids, now: int)
    requires Alike(b, b')
    ensures Alike(AuctionTick(b, last, now), AuctionTick(b', last, now))
  {
    var c, c' := Discover(b, last), Discover(b', last);
    NotifyAlike(b.(cache := c.cache), b'.(cache := c.cache), NewAuction(last.id));
    assert Alike(c, c');
    var d, d' := ShowBid(c, last), ShowBid(c', last);
    if |last.bids| > 0 {
      NotifyAlike(c.(cache := d.cache), c'.(cache := d.cache), NewBid(last.id, last.bids[0]));
    }
    assert Alike(d, d');
    var e := WarnEnding(d, last, now);
    NotifyAlike(d.(cache := e.cache), d'.(cache := e.cache), AuctionEndingSoon(last.id));
  }

  lemma VoteNoticesAlike(b: Bot, b': Bot, notices: seq<Notice>)
    requires Alike(b, b')
    ensures Alike(b.(trace := b.trace + notices), b'.(trace := b'.trace + notices))
  {
  }

  lemma ChangesAlike(b: Bot, b': Bot, cached: Proposal, p: Proposal, now: int)
    requires Alike(b, b')
    ensures Alike(Changes(b, cached, p, now), Changes(b', cached, p, now))
  {
    var c := if cached.status != p.status then b.Notify(UpdatedStatus(p.id, p.status)) else b;
    var c' := if cached.status != p.status then b'.Notify(UpdatedStatus(p.id, p.status)) else b';
    var notices := VoteNotices(p.id, ExtractNewVotes(cached, p));
    NotifyAlike(b, b', UpdatedStatus(p.id, p.status));
    VoteNoticesAlike(c, c', notices);
    NotifyAlike(c.(trace := c.trace + notices), c'.(trace := c'.trace + notices), AtRiskOfExpiry(p.id));
  }

  lemma {:induction false} GovernanceAlike(b: Bot, b': Bot, proposals: seq<Proposal>, now: int)
    requires Alike(b, b')
    ensures Alike(GovernanceTick(b, proposals, now), GovernanceTick(b', proposals, now))
  {
    if proposals != [] {
      var init, p := proposals[..|proposals| - 1], proposals[|proposals| - 1];
      var mid, mid' := GovernanceTick(b, init, now), GovernanceTick(b', init, now);
      GovernanceAlike(b, b', init, now);
      if p.id in mid.cache.proposals {
        ChangesAlike(mid, mid', mid.cache.proposals[p.id], p, now);
      } else {
        NotifyAlike(mid, mid', NewProposal(p.id));
      }
    }
  }

  /** A run with any turns ends with the caches of the run without, and gave the same notices as often. */
  lemma {:induction false} AnyTurnsInRuns(b: Bot, es: seq<Scheduled>)
    requires ScheduledRun(b, es).Some?
    ensures Alike(ScheduledRun(b, es).value, Run(b, TicksOf(es)))
  {
    if es != [] {
      var init, e := es[..|es| - 1], es[|es| - 1];
      var before, plain := ScheduledRun(b, init).value, Run(b, TicksOf(init));
      AnyTurnsInRuns(b, init);
      assert TicksOf(es)[..|es| - 1] == TicksOf(init);
      match e.tick {
        case OfAuction(last, now) => AuctionAlike(before, plain, last, now);
        case OfGovernance(proposals, now) =>
          AnyTurns(before, proposals, now, e.schedule);
          GovernanceAlike(before, plain, proposals, now);
      }
    }
  }

  /** So whatever the turns: each vote is announced as often as it is due, and each proposal once. */
  lemma AnnouncedOnceWhateverTheTurns(c: Cache, es: seq<Scheduled>, notice: Notice)
    requires notice.GovernanceVote? && ScheduledRun(Bot(c, []), es).Some?
    requires VotesGrow(c.proposals, Snapshots(TicksOf(es)), notice.proposal)
    ensures Told(ScheduledRun(Bot(c, []), es).value, c.proposals, Snapshots(TicksOf(es)), notice)
    ensures Once(c, ScheduledRun(Bot(c, []), es).value, notice.proposal)
  {
    AnyTurnsInRuns(Bot(c, []), es);
    EachVoteOnce(c, TicksOf(es), notice);
    ProposalsAnnouncedOnce(c, TicksOf(es), notice.proposal);
  }

  /** Each status change and each expiry is announced as often as the readings call for. */
  lemma StatusWhateverTheTurns(c: Cache, es: seq<Scheduled>, proposal: nat, status: Entities.Status)
    requires ScheduledRun(Bot(c, []), es).Some?
    ensures ToldOf(ScheduledRun(Bot(c, []), es).value, c, Readings(TicksOf(es)), proposal, status)
  {
    AnyTurnsInRuns(Bot(c, []), es);
    StatusAndExpiryExact(c, TicksOf(es), proposal, status);
  }

  lemma AdvanceSilent(b: Bot, p: Proposal, now: int, t: Task)
    ensures SilentOnAuctions(b, Advance(b, p, now, t).0)
  {
    OfAuctionsNotify(b, NewProposal(p.id));
    OfAuctionsNotify(b, UpdatedStatus(p.id, p.status));
    OfAuctionsNotify(b, AtRiskOfExpiry(p.id));
    if t.StatusTold? {
      VotesSilent(b, p.id, ExtractNewVotes(t.before, p));
    }
  }

  lemma {:induction false} TurnsSilent(s: Tasks, proposals: seq<Proposal>, now: int, schedule: seq<nat>)
    requires |s.at| == |proposals| && IsSchedule(schedule, |proposals|)
    ensures SilentOnAuctions(s.bot, Turns(s, proposals, now, schedule).bot)
  {
    if schedule != [] {
      var before, i := Turns(s, proposals, now, schedule[..|schedule| - 1]), schedule[|schedule| - 1];
      TurnsSilent(s, proposals, now, schedule[..|schedule| - 1]);
      AdvanceSilent(before.bot, proposals[i], now, before.at[i]);
    }
  }

  lemma {:induction false} ScheduledUpToDate(c: Cache, es: seq<Scheduled>)
    requires ScheduledRun(Bot(c, []), es).Some?
    ensures UpToDate(ScheduledRun(Bot(c, []), es).value, c, TicksOf(es))
  {
    if es != [] {
      var init, e := es[..|es| - 1], es[|es| - 1];
      var before := ScheduledRun(Bot(c, []), init).value;
      ScheduledUpToDate(c, init);
      assert TicksOf(es) == TicksOf(init) + [e.tick];
      match e.tick {
        case OfAuction(last, now) => AuctionTickUpToDate(before, c, TicksOf(init), last, now);
        case OfGovernance(proposals, now) =>
          TurnsSilent(StartOf(before, proposals), proposals, now, e.schedule);
          GovernanceUpToDate(before, ScheduledStep(before, e), c, TicksOf(init), proposals, now);
      }
    }
  }

  /** And the notices about auctions are, in order, those that were due. */
  lemma AuctionsWhateverTheTurns(c: Cache, es: seq<Scheduled>)
    requires ScheduledRun(Bot(c, []), es).Some?
    ensures OfAuctions(ScheduledRun(Bot(c, []), es).value.trace) == AllDue(c, TicksOf(es))
  {
    ScheduledUpToDate(c, es);
  }

  // ---------- schedules that finish ----------

  lemma RankFalls(b: Bot, p: Proposal, now: int, t: Task)
    ensures Rank(Advance(b, p, now, t).1) <= if t.Done? then 0 else Rank(t) - 1
  {
  }

  lemma {:induction false} RankAfter(s: Tasks, proposals: seq<Proposal>, now: int, schedule: seq<nat>, i: nat)
    requires |s.at| == |proposals| && IsSchedule(schedule, |proposals|) && i < |proposals|
    ensures var rank, turns := Rank(s.at[i]), multiset(schedule)[i];
            Rank(Turns(s, proposals, now, schedule).at[i]) <= if turns < rank then rank - turns else 0
  {
    if schedule != [] {
      var init, j := schedule[..|schedule| - 1], schedule[|schedule| - 1];
      var before := Turns(s, proposals, now, init);
      RankAfter(s, proposals, now, init, i);
      assert schedule == init + [j];
      if j == i {
        RankFalls(before.bot, proposals[i], now, before.at[i]);
      }
    }
  }

  /** Seven turns are enough for every task: a schedule that gives each at least that many brings all to their end. */
  lemma SevenTurnsEach(b: Bot, proposals: seq<Proposal>, now: int, schedule: seq<nat>)
    requires IsSchedule(schedule, |proposals|)
    requires forall i :: 0 <= i < |proposals| ==> multiset(schedule)[i] >= 7
    ensures Finished(Turns(StartOf(b, proposals), proposals, now, schedule))
  {
    var s := Turns(StartOf(b, proposals), proposals, now, schedule);
    forall i | 0 <= i < |s.at|
      ensures s.at[i].Done?
    {
      RankAfter(StartOf(b, proposals), proposals, now, schedule, i);
    }
  }

  // ---------- the tasks of the bot ----------

  /** One turn of one task on the bot's caches. */
  method TakeTurn(bot: NotificationBot, proposal: Proposal, now: int, task: Task) returns (next: Task)
    modifies bot
    ensures (Bot(bot.cache, bot.trace), next) == Advance(old(Bot(bot.cache, bot.trace)), proposal, now, task)
  {
    match task {
      case Start =>
        next := Loaded(if proposal.id in bot.cache.proposals then Some(bot.cache.proposals[proposal.id]) else None);
      case Loaded(None) =>
        bot.trace := bot.trace + [NewProposal(proposal.id)];
        next := Saving;
      case Loaded(Some(cached)) =>
        if cached.status != proposal.status {
          bot.trace := bot.trace + [UpdatedStatus(proposal.id, proposal.status)];
        }
        next := StatusTold(cached);
      case StatusTold(cached) =>
        bot.TellVotes(proposal.id, ExtractNewVotes(cached, proposal));
        next := if IsAtRiskOfExpiry(proposal, now) then AskingWarned else Saving;
      case AskingWarned =>
        next := if proposal.id in bot.cache.warned then Saving else Warning;
      case Warning =>
        bot.trace := bot.trace + [AtRiskOfExpiry(proposal.id)];
        next := Recording;
      case Recording =>
        bot.cache := bot.cache.(warned := bot.cache.warned + {proposal.id});
        next := Saving;
      case Saving =>
        bot.cache := bot.cache.(proposals := bot.cache.proposals[proposal.id := proposal]);
        next := Done;
      case Done =>
        next := Done;
    }
  }

  /** A governance tick, its tasks taking turns by a schedule. */
  method RunTasks(bot: NotificationBot, proposals: seq<Proposal>, now: int, schedule: seq<nat>) returns (at: seq<Task>)
    requires Distinct(Ids(proposals)) && IsSchedule(schedule, |proposals|)
    modifies bot
    ensures |at| == |proposals|
    ensures (forall t <- at :: t.Done?) ==>
              Alike(Bot(bot.cache, bot.trace), GovernanceTick(old(Bot(bot.cache, bot.trace)), proposals, now))
  {
    ghost var start := StartOf(Bot(bot.cache, bot.trace), proposals);
    at := AllStart(|proposals|);
    for k := 0 to |schedule|
      invariant |at| == |proposals|
      invariant Tasks(Bot(bot.cache, bot.trace), at) == Turns(start, proposals, now, schedule[..k])
    {
      assert schedule[..k + 1][..k] == schedule[..k];
      var i := schedule[k];
      var next := TakeTurn(bot, proposals[i], now, at[i]);
      at := at[i := next];
    }
    assert schedule[..|schedule|] == schedule;
    if forall t <- at :: t.Done? {
      AnyTurns(start.bot, proposals, now, schedule);
    }
  }
}
