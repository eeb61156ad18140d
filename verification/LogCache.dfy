/** The log cache: its reducers over any run of actions, which keys need a fetch, and the block ranges of a fetch. */
module LogCache {
  import opened LogKeys
  import opened Numbers
  import opened Wrappers

  const MAX_BLOCKS_PER_CALL: nat := 1_000_000

  type Log = string

  /** `logs` is absent when the fetch failed. */
  datatype Results = Results(blockNumber: nat, logs: Option<seq<Log>>)

  datatype Entry = Entry(listeners: int, fetchingBlockNumber: Option<nat>, results: Option<Results>)

  type State = map<string, Entry>

  /** The actions, by the keys of their filters. */
  datatype Action =
    | AddListener(key: string)
    | FetchingLogs(keys: seq<string>, blockNumber: nat)
    | FetchedLogs(key: string, results: Results)
    | RemoveListener(key: string)

  function MarkFetching(s: State, key: string, blockNumber: nat): State {
    if key in s then s[key := s[key].(fetchingBlockNumber := Some(blockNumber))] else s
  }

  function MarkAll(s: State, keys: seq<string>, blockNumber: nat): State {
    if keys == [] then s else MarkFetching(MarkAll(s, keys[..|keys| - 1], blockNumber), keys[|keys| - 1], blockNumber)
  }

  /** Newer results are not replaced by older ones; a failed fetch arrives as results without logs. */
  function Store(s: State, key: string, results: Results): State {
    if key !in s || (s[key].results.Some? && s[key].results.value.blockNumber > results.blockNumber) then s
    else s[key := s[key].(results := Some(results))]
  }

  function Reduce(s: State, a: Action): State {
    match a
    case AddListener(key) => if key in s then s[key := s[key].(listeners := s[key].listeners + 1)] else s[key := Entry(1, None, None)]
    case FetchingLogs(keys, blockNumber) => MarkAll(s, keys, blockNumber)
    case FetchedLogs(key, results) => Store(s, key, results)
    case RemoveListener(key) => if key in s then s[key := s[key].(listeners := s[key].listeners - 1)] else s
  }

  function ReduceAll(s: State, actions: seq<Action>): State {
    if actions == [] then s else Reduce(ReduceAll(s, actions[..|actions| - 1]), actions[|actions| - 1])
  }

  // ---------- the slice ----------

  class LogsSlice {
    var state: State

    constructor ()
      ensures state == map[]
    {
      state := map[];
    }

    method HandleAddListener(filter: EventFilter)
      modifies this
      ensures state == Reduce(old(state), AddListener(FilterToKey(filter)))
    {
      var key := FilterToKey(filter);
      if key !in state {
        state := state[key := Entry(1, None, None)];
      } else {
        state := state[key := state[key].(listeners := state[key].listeners + 1)];
      }
    }

    method HandleFetchingLogs(filters: seq<EventFilter>, blockNumber: nat)
      modifies this
      ensures state == Reduce(old(state), FetchingLogs(Keys(filters), blockNumber))
    {
      for i := 0 to |filters|
        invariant state == MarkAll(old(state), Keys(filters)[..i], blockNumber)
      {
        var key := FilterToKey(filters[i]);
        assert Keys(filters)[..i + 1][..i] == Keys(filters)[..i];
        if key in state {
          state := state[key := state[key].(fetchingBlockNumber := Some(blockNumber))];
        }
      }
      assert Keys(filters)[..|filters|] == Keys(filters);
    }

    method HandleFetchedLogs(filter: EventFilter, results: Results)
      modifies this
      ensures state == Reduce(old(state), FetchedLogs(FilterToKey(filter), results))
    {
      var key := FilterToKey(filter);
      if key !in state {
        return;
      }
      var fetchState := state[key];
      if fetchState.results.Some? && fetchState.results.value.blockNumber > results.blockNumber {
        return;
      }
      state := state[key := fetchState.(results := Some(results))];
    }

    method HandleFetchedLogsError(filter: EventFilter, blockNumber: nat)
      modifies this
      ensures state == Reduce(old(state), FetchedLogs(FilterToKey(filter), Results(blockNumber, None)))
    {
      HandleFetchedLogs(filter, Results(blockNumber, None));
    }

    method HandleRemoveListener(filter: EventFilter)
      modifies this
      ensures state == Reduce(old(state), RemoveListener(FilterToKey(filter)))
    {
      var key := FilterToKey(filter);
      if key in state {
        state := state[key := state[key].(listeners := state[key].listeners - 1)];
      }
    }
  }

  function Keys(filters: seq<EventFilter>): (keys: seq<string>)
    ensures |keys| == |filters|
  {
    seq(|filters|, i requires 0 <= i < |filters| => FilterToKey(filters[i]))
  }

  // ---------- results over any run ----------

  /** An entry stays, and the block number of its results does not fall. */
  predicate NoOlder(before: State, after: State, key: string) {
    key in before ==>
      key in after &&
      (before[key].results.Some? ==>
         after[key].results.Some? && before[key].results.value.blockNumber <= after[key].results.value.blockNumber)
  }

  lemma {:induction false} MarkedEntry(s: State, keys: seq<string>, blockNumber: nat, key: string)
    ensures var after := MarkAll(s, keys, blockNumber);
            (key in after <==> key in s) &&
            (key in s ==> after[key] == if key in keys then s[key].(fetchingBlockNumber := Some(blockNumber)) else s[key])
  {
    if keys != [] {
      MarkedEntry(s, keys[..|keys| - 1], blockNumber, key);
      assert keys == keys[..|keys| - 1] + [keys[|keys| - 1]];
    }
  }

  /** Under any order of actions a key's results never get older. */
  lemma {:induction false} ResultsNeverOlder(s: State, actions: seq<Action>, key: string)
    ensures NoOlder(s, ReduceAll(s, actions), key)
  {
    if actions != [] {
      var prefix, a := actions[..|actions| - 1], actions[|actions| - 1];
      ResultsNeverOlder(s, prefix, key);
      if a.FetchingLogs? {
        MarkedEntry(ReduceAll(s, prefix), a.keys, a.blockNumber, key);
      }
    }
  }

  // ---------- one pass of the updater ----------

  predicate NeedsFetch(e: Entry, blockNumber: nat) {
    && e.listeners != 0
    && !(e.fetchingBlockNumber.Some? && e.fetchingBlockNumber.value >= blockNumber)
    && !(e.results.Some? && e.results.value.blockNumber >= blockNumber)
  }

  /** The keys of the state that need a fetch, in the order the state lists its keys. */
  function FiltersNeedFetch(s: State, keys: seq<string>, blockNumber: nat): seq<EventFilter>
    requires forall key <- keys :: key in s && IsKey(key)
  {
    if keys == [] then []
    else
      var last := keys[|keys| - 1];
      assert last in keys && IsKey(last);
      FiltersNeedFetch(s, keys[..|keys| - 1], blockNumber) + (if NeedsFetch(s[last], blockNumber) then [KeyToFilter(last)] else [])
  }

  lemma {:induction false} FetchedKeys(s: State, keys: seq<string>, blockNumber: nat, key: string)
    requires forall k <- keys :: k in s && IsKey(k)
    ensures key in Keys(FiltersNeedFetch(s, keys, blockNumber)) <==>
            exists k <- keys :: NeedsFetch(s[k], blockNumber) && Normal(k) == key
  {
    if keys != [] {
      var prefix, last := keys[..|keys| - 1], keys[|keys| - 1];
      var filters, all := FiltersNeedFetch(s, prefix, blockNumber), FiltersNeedFetch(s, keys, blockNumber);
      FetchedKeys(s, prefix, blockNumber, key);
      assert keys == prefix + [last];
      if NeedsFetch(s[last], blockNumber) {
        assert Keys(all) == Keys(filters) + [Normal(last)];
      } else {
        assert all == filters;
      }
    }
  }

  /** The keys of the state, in some order; each is a printed key. */
  predicate Lists(s: State, keys: seq<string>) {
    (forall k <- keys :: k in s && IsKey(k)) && forall k <- s :: k in keys
  }

  /**
   Once the updater has dispatched the fetch, a key still needs one exactly when it needed one and
   its logs will land under another key.
   */
  lemma PassExact(s: State, keys: seq<string>, blockNumber: nat, key: string)
    requires Lists(s, keys) && key in s
    ensures var filters := FiltersNeedFetch(s, keys, blockNumber);
            var after := Reduce(s, FetchingLogs(Keys(filters), blockNumber));
            key in after &&
            (NeedsFetch(after[key], blockNumber) <==> NeedsFetch(s[key], blockNumber) && !Stable(key))
  {
    var filters := FiltersNeedFetch(s, keys, blockNumber);
    MarkedEntry(s, Keys(filters), blockNumber, key);
    FetchedKeys(s, keys, blockNumber, key);
    if NeedsFetch(s[key], blockNumber) && !Stable(key) {
      forall k | k in keys
        ensures Normal(k) != key
      {
        NormalIsStable(k);
      }
    }
  }

  // ---------- what a run leaves in an entry ----------

  /** The results that were delivered for a key since somebody first listened. */
  function Answers(actions: seq<Action>, key: string): seq<Results> {
    if actions == [] then []
    else
      var prefix, a := actions[..|actions| - 1], actions[|actions| - 1];
      Answers(prefix, key) + (if a.FetchedLogs? && a.key == key && AddListener(key) in prefix then [a.results] else [])
  }

  /** The listeners that came, less those that left after the first came. */
  function Listeners(actions: seq<Action>, key: string): int {
    if actions == [] then 0
    else
      var prefix, a := actions[..|actions| - 1], actions[|actions| - 1];
      Listeners(prefix, key)
      + (if a == AddListener(key) then 1 else if a == RemoveListener(key) && AddListener(key) in prefix then -1 else 0)
  }

  /** The block of the last fetch that was dispatched for a key while it was listened to. */
  function LastFetch(actions: seq<Action>, key: string): Option<nat> {
    if actions == [] then None
    else
      var prefix, a := actions[..|actions| - 1], actions[|actions| - 1];
      if a.FetchingLogs? && key in a.keys && AddListener(key) in prefix then Some(a.blockNumber) else LastFetch(prefix, key)
  }

  /** No answer is of a later block than the `k`-th, and none after it of the same. */
  predicate IsNewest(answers: seq<Results>, k: nat) {
    k < |answers| && forall j :: 0 <= j < |answers| ==>
      answers[j].blockNumber <= answers[k].blockNumber && (j > k ==> answers[j].blockNumber < answers[k].blockNumber)
  }

  /** An entry's listeners and fetch are those of the run; its results come from the answers. */
  predicate EntryOf(s: State, actions: seq<Action>, key: string) {
    && (key in s <==> AddListener(key) in actions)
    && (key in s ==> s[key].listeners == Listeners(actions, key) && s[key].fetchingBlockNumber == LastFetch(actions, key))
    && (key !in s ==> Listeners(actions, key) == 0 && LastFetch(actions, key) == None && Answers(actions, key) == [])
  }

  lemma {:induction false} EntryOverRun(actions: seq<Action>, key: string)
    ensures EntryOf(ReduceAll(map[], actions), actions, key)
  {
    if actions != [] {
      var prefix, a := actions[..|actions| - 1], actions[|actions| - 1];
      EntryOverRun(prefix, key);
      assert actions == prefix + [a];
      if a.FetchingLogs? {
        MarkedEntry(ReduceAll(map[], prefix), a.keys, a.blockNumber, key);
      }
    }
  }

  lemma OneMoreAnswer(answers: seq<Results>, k: nat, r: Results)
    requires IsNewest(answers, k)
    ensures IsNewest(answers + [r], if answers[k].blockNumber > r.blockNumber then k else |answers|)
  {
  }

  lemma AnswersLast(prefix: seq<Action>, a: Action, key: string)
    ensures Answers(prefix + [a], key) ==
            if a.FetchedLogs? && a.key == key && AddListener(key) in prefix then Answers(prefix, key) + [a.results] else Answers(prefix, key)
  {
    assert (prefix + [a])[..|prefix|] == prefix;
    assert Answers(prefix, key) + [] == Answers(prefix, key);
  }

  /** The results are the newest of the answers; `k` says which. */
  predicate Holds(results: Option<Results>, answers: seq<Results>, k: nat) {
    if answers == [] then results == None else IsNewest(answers, k) && results == Some(answers[k])
  }

  /** What storing an answer does to the results. */
  lemma StoreHolds(s: State, key: string, r: Results, answers: seq<Results>, k: nat) returns (l: nat)
    requires key in s && Holds(s[key].results, answers, k)
    ensures key in Store(s, key, r) && Holds(Store(s, key, r)[key].results, answers + [r], l)
  {
    l := |answers|;
    if answers != [] {
      OneMoreAnswer(answers, k, r);
      l := if answers[k].blockNumber > r.blockNumber then k else |answers|;
    }
  }

  /** An action that is no answer to the key leaves its results alone. */
  lemma OtherActionHolds(s: State, a: Action, key: string)
    requires key in s && !(a.FetchedLogs? && a.key == key)
    ensures key in Reduce(s, a) && Reduce(s, a)[key].results == s[key].results
  {
    if a.FetchingLogs? {
      MarkedEntry(s, a.keys, a.blockNumber, key);
    }
  }

  /** Over any run the results of a key are the newest that were delivered for it, with their logs; of one block the last. */
  lemma {:induction false} ResultsExact(actions: seq<Action>, key: string) returns (k: nat)
    requires AddListener(key) in actions
    ensures key in ReduceAll(map[], actions)
    ensures Holds(ReduceAll(map[], actions)[key].results, Answers(actions, key), k)
  {
    var prefix, a := actions[..|actions| - 1], actions[|actions| - 1];
    var s := ReduceAll(map[], prefix);
    assert actions == prefix + [a];
    k := 0;
    EntryOverRun(prefix, key);
    AnswersLast(prefix, a, key);
    if AddListener(key) in prefix {
      k := ResultsExact(prefix, key);
      if a.FetchedLogs? && a.key == key {
        k := StoreHolds(s, key, a.results, Answers(prefix, key), k);
      } else {
        OtherActionHolds(s, a, key);
      }
    }
  }

  /**
   Over any run a key needs a fetch in a block exactly when somebody listens, the last fetch for it
   was dispatched in an earlier block, and every answer to it is of an earlier block.
   */
  lemma NeedsFetchExact(actions: seq<Action>, key: string, blockNumber: nat)
    requires AddListener(key) in actions
    ensures key in ReduceAll(map[], actions)
    ensures NeedsFetch(ReduceAll(map[], actions)[key], blockNumber) <==>
            && Listeners(actions, key) != 0
            && (LastFetch(actions, key).Some? ==> LastFetch(actions, key).value < blockNumber)
            && forall r <- Answers(actions, key) :: r.blockNumber < blockNumber
  {
    EntryOverRun(actions, key);
    var k := ResultsExact(actions, key);
    var answers := Answers(actions, key);
    if answers != [] {
      assert answers[k] in answers;
    }
  }

  // ---------- the block ranges ----------

  datatype Range = Range(fromBlock: nat, toBlock: nat)

  function RangesFrom(fromBlock: nat, blockNumber: nat): seq<Range>
    decreases blockNumber - fromBlock
  {
    if fromBlock <= blockNumber then
      [Range(fromBlock, Min(fromBlock + MAX_BLOCKS_PER_CALL, blockNumber))]
      + RangesFrom(fromBlock + MAX_BLOCKS_PER_CALL, blockNumber)
    else []
  }

  method Ranges(fromBlock: nat, blockNumber: nat) returns (ranges: seq<Range>)
    ensures ranges == RangesFrom(fromBlock, blockNumber)
  {
    ranges := [];
    var from := fromBlock;
    while from <= blockNumber
      invariant ranges + RangesFrom(from, blockNumber) == RangesFrom(fromBlock, blockNumber)
      decreases blockNumber - from
    {
      ranges := ranges + [Range(from, Min(from + MAX_BLOCKS_PER_CALL, blockNumber))];
      from := from + MAX_BLOCKS_PER_CALL;
    }
  }

  /** How many of the ranges ask for a block. */
  function TimesAsked(ranges: seq<Range>, block: nat): nat {
    if ranges == [] then 0
    else (if ranges[0].fromBlock <= block <= ranges[0].toBlock then 1 else 0) + TimesAsked(ranges[1..], block)
  }

  /**
   Every block from the first to the last is asked for, and no other; once, except that the blocks
   at which one range ends and the next starts are asked for twice.
   */
  lemma {:induction false} BlocksAsked(fromBlock: nat, blockNumber: nat, block: nat)
    ensures TimesAsked(RangesFrom(fromBlock, blockNumber), block) ==
            if !(fromBlock <= block <= blockNumber) then 0
            else if block > fromBlock && (block - fromBlock) % MAX_BLOCKS_PER_CALL == 0 then 2
            else 1
    decreases blockNumber - fromBlock
  {
    if fromBlock <= blockNumber {
      var next := fromBlock + MAX_BLOCKS_PER_CALL;
      var ranges := RangesFrom(fromBlock, blockNumber);
      BlocksAsked(next, blockNumber, block);
      assert ranges[1..] == RangesFrom(next, blockNumber);
      if block > next {
        assert (block - fromBlock) % MAX_BLOCKS_PER_CALL == (block - next) % MAX_BLOCKS_PER_CALL;
      }
    }
  }

  /** Consecutive ranges share exactly one block. */
  lemma {:induction false} RangesTouch(fromBlock: nat, blockNumber: nat, i: nat, block: nat)
    requires i + 1 < |RangesFrom(fromBlock, blockNumber)|
    ensures var a, b := RangesFrom(fromBlock, blockNumber)[i], RangesFrom(fromBlock, blockNumber)[i + 1];
            a.fromBlock <= block <= a.toBlock && b.fromBlock <= block <= b.toBlock <==> block == a.toBlock == b.fromBlock
    decreases blockNumber - fromBlock
  {
    var rest := RangesFrom(fromBlock + MAX_BLOCKS_PER_CALL, blockNumber);
    assert RangesFrom(fromBlock, blockNumber)[1..] == rest;
    if i > 0 {
      RangesTouch(fromBlock + MAX_BLOCKS_PER_CALL, blockNumber, i - 1, block);
    }
  }

  // ---------- runs in which the updater does the fetching ----------

  /** A dispatch has named the key. */
  predicate Dispatched(actions: seq<Action>, key: string) {
    exists a <- actions :: a.FetchingLogs? && key in a.keys
  }

  /** What the updater dispatches in a state. */
  ghost predicate DispatchOf(s: State, a: Action)
    requires a.FetchingLogs?
  {
    exists keys :: Lists(s, keys) && a.keys == Keys(FiltersNeedFetch(s, keys, a.blockNumber))
  }

  /** A run from the start in which each fetch is the updater's, and logs arrive for filters it has dispatched. */
  ghost predicate ByUpdater(actions: seq<Action>) {
    actions == [] ||
    var prefix, a := actions[..|actions| - 1], actions[|actions| - 1];
    && ByUpdater(prefix)
    && match a
       case AddListener(key) => IsKey(key)
       case FetchingLogs(_, _) => DispatchOf(ReduceAll(map[], prefix), a)
       case FetchedLogs(key, _) => Dispatched(prefix, key)
       case RemoveListener(_) => true
  }

  lemma DispatchIsStable(s: State, a: Action, key: string)
    requires a.FetchingLogs? && DispatchOf(s, a) && key in a.keys
    ensures Stable(key)
  {
    var keys :| Lists(s, keys) && a.keys == Keys(FiltersNeedFetch(s, keys, a.blockNumber));
    FetchedKeys(s, keys, a.blockNumber, key);
    var k :| k in keys && NeedsFetch(s[k], a.blockNumber) && Normal(k) == key;
    NormalIsStable(k);
  }

  lemma {:induction false} DispatchedIsStable(actions: seq<Action>, key: string)
    requires ByUpdater(actions) && Dispatched(actions, key)
    ensures Stable(key)
  {
    var prefix, a := actions[..|actions| - 1], actions[|actions| - 1];
    assert actions == prefix + [a];
    if a.FetchingLogs? && key in a.keys {
      DispatchIsStable(ReduceAll(map[], prefix), a, key);
    } else {
      DispatchedIsStable(prefix, key);
    }
  }

  /** An entry for which no fetch was ever recorded, and no result. */
  predicate Untouched(s: State, key: string) {
    key in s ==> s[key].results.None? && s[key].fetchingBlockNumber.None?
  }

  /** Over any such run a key that is not stable gets neither a fetch nor a result. */
  lemma {:induction false} UnstableUntouched(actions: seq<Action>, key: string)
    requires ByUpdater(actions) && !Stable(key)
    ensures Untouched(ReduceAll(map[], actions), key)
  {
    if actions != [] {
      var prefix, a := actions[..|actions| - 1], actions[|actions| - 1];
      UnstableUntouched(prefix, key);
      match a {
        case FetchingLogs(keys, blockNumber) =>
          if key in keys {
            DispatchIsStable(ReduceAll(map[], prefix), a, key);
          }
          MarkedEntry(ReduceAll(map[], prefix), keys, blockNumber, key);
        case FetchedLogs(fetched, _) =>
          DispatchedIsStable(prefix, fetched);
        case _ =>
      }
    }
  }

  /** No run gives the key a result. */
  ghost predicate NeverServed(key: string) {
    forall actions :: ByUpdater(actions) && key in ReduceAll(map[], actions) ==> ReduceAll(map[], actions)[key].results.None?
  }

  /** A listener, a fetch and an answer. */
  lemma StableIsServed(key: string) returns (actions: seq<Action>)
    requires Stable(key)
    ensures ByUpdater(actions) && key in ReduceAll(map[], actions) && ReduceAll(map[], actions)[key].results.Some?
  {
    var add, fetch, answer := AddListener(key), FetchingLogs([key], 1), FetchedLogs(key, Results(1, Some([])));
    actions := [add, fetch, answer];
    assert actions[..2] == [add, fetch] && [add, fetch][..1] == [add] && [add][..0] == [];
    var s := ReduceAll(map[], [add]);
    assert ReduceAll(map[], []) == map[] && s == Reduce(map[], add);
    assert Lists(s, [key]);
    assert [key][..0] == [] && FiltersNeedFetch(s, [key], 1) == [KeyToFilter(key)];
    assert Keys([KeyToFilter(key)]) == [key];
    assert DispatchOf(s, fetch);
    assert ByUpdater([add]) && ByUpdater([add, fetch]);
    assert fetch in [add, fetch] && Dispatched([add, fetch], key);
    MarkedEntry(s, [key], 1, key);
  }

  /** A key never gets a result, in any run, if and only if it is not stable. */
  lemma NeverServedExact(key: string)
    ensures NeverServed(key) <==> !Stable(key)
  {
    if Stable(key) {
      var actions := StableIsServed(key);
    } else {
      forall actions | ByUpdater(actions)
        ensures Untouched(ReduceAll(map[], actions), key)
      {
        UnstableUntouched(actions, key);
      }
    }
  }

  /** A filter without topics, as long as somebody listens, needs a fetch in every block of every run. */
  lemma RefetchedForever(actions: seq<Action>, address: string, blockNumber: nat)
    requires ByUpdater(actions) && ':' !in address
    ensures var key, s := FilterToKey(EventFilter(Some(address), None, None)), ReduceAll(map[], actions);
            key in s ==> s[key].results.None? && (NeedsFetch(s[key], blockNumber) <==> s[key].listeners != 0)
  {
    NoTopics(address);
    UnstableUntouched(actions, FilterToKey(EventFilter(Some(address), None, None)));
  }
}
