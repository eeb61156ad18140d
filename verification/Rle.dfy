/**
 Run-length encoding with one-byte counts: what a run list stands for, the list the encoder
 produces, and why no shorter list stands for the same data.
 */
module Rle {
  const MAX_COUNT: int := 255

  datatype Run = Run(length: int, color: int)

  function Repeat(color: int, n: nat): (s: seq<int>)
    ensures |s| == n
  {
    seq(n, _ => color)
  }

  /** A run of negative length stands for nothing, as one of length 0 does. */
  function RunCells(run: Run): seq<int> {
    Repeat(run.color, if run.length < 0 then 0 else run.length)
  }

  /** The data a run list stands for. */
  function Expand(runs: seq<Run>): seq<int> {
    if runs == [] then [] else RunCells(runs[0]) + Expand(runs[1..])
  }

  predicate ByteCounts(runs: seq<Run>) {
    forall run <- runs :: 1 <= run.length <= MAX_COUNT
  }

  /** The runs still to come when `count` cells of colour `previous` are pending before `rest`. */
  function Pending(previous: int, count: int, rest: seq<int>): (runs: seq<Run>)
    decreases |rest|
  {
    if rest == [] then [Run(count, previous)]
    else if rest[0] != previous || count == MAX_COUNT then
      [Run(count, previous)] + Pending(rest[0], 1, rest[1..])
    else
      Pending(previous, count + 1, rest[1..])
  }

  /** The run list of the encoder. */
  function Greedy(data: seq<int>): seq<Run> {
    if data == [] then [] else Pending(data[0], 1, data[1..])
  }

  /** What one turn of the encoder's loop does to the runs found so far. */
  lemma PendingStep(runs: seq<Run>, previous: int, count: int, data: seq<int>, i: nat)
    requires i < |data|
    ensures runs + Pending(previous, count, data[i..]) ==
            if data[i] != previous || count == MAX_COUNT then
              runs + [Run(count, previous)] + Pending(data[i], 1, data[i + 1..])
            else runs + Pending(previous, count + 1, data[i + 1..])
  {
    assert data[i..][1..] == data[i + 1..];
  }

  lemma {:induction false} PendingExpands(previous: int, count: int, rest: seq<int>)
    requires 1 <= count <= MAX_COUNT
    ensures Expand(Pending(previous, count, rest)) == Repeat(previous, count) + rest
    ensures ByteCounts(Pending(previous, count, rest))
    decreases |rest|
  {
    if rest == [] {
      assert Expand([Run(count, previous)]) == RunCells(Run(count, previous)) + Expand([]);
    } else if rest[0] != previous || count == MAX_COUNT {
      PendingExpands(rest[0], 1, rest[1..]);
      var tail := Pending(rest[0], 1, rest[1..]);
      assert ([Run(count, previous)] + tail)[1..] == tail;
      assert Repeat(rest[0], 1) + rest[1..] == rest;
    } else {
      PendingExpands(previous, count + 1, rest[1..]);
      assert Repeat(previous, count + 1) + rest[1..] == Repeat(previous, count) + rest;
    }
  }

  /** The encoder loses nothing, and every count it prints is a byte and not 0. */
  lemma GreedyExpands(data: seq<int>)
    ensures Expand(Greedy(data)) == data
    ensures ByteCounts(Greedy(data))
  {
    if data != [] {
      PendingExpands(data[0], 1, data[1..]);
      assert Repeat(data[0], 1) + data[1..] == data;
    }
  }

  lemma {:induction false} Absorb(color: int, count: int, n: nat, rest: seq<int>)
    requires 1 <= count && count + n <= MAX_COUNT
    ensures Pending(color, count, Repeat(color, n) + rest) == Pending(color, count + n, rest)
    decreases n
  {
    if n == 0 {
      assert Repeat(color, n) + rest == rest;
    } else {
      assert (Repeat(color, n) + rest)[1..] == Repeat(color, n - 1) + rest;
      Absorb(color, count + 1, n - 1, rest);
    }
  }

  /** A run that does not fit in the pending count ends the pending run, and what is left of it opens the next. */
  lemma Overflow(previous: int, count: int, run: Run, tail: seq<int>)
    requires 1 <= count <= MAX_COUNT && 1 <= run.length <= MAX_COUNT
    requires run.color == previous ==> count + run.length > MAX_COUNT
    ensures var spare := if run.color == previous then MAX_COUNT - count else 0;
            |Pending(previous, count, RunCells(run) + tail)| == 1 + |Pending(run.color, run.length - spare, tail)|
  {
    var spare := if run.color == previous then MAX_COUNT - count else 0;
    var left := run.length - spare;
    var rest := Repeat(run.color, left) + tail;
    assert rest[1..] == Repeat(run.color, left - 1) + tail;
    Absorb(run.color, 1, left - 1, tail);
    assert RunCells(run) + tail == Repeat(run.color, spare) + rest;
    if run.color == previous {
      Absorb(previous, count, spare, rest);
    } else {
      assert RunCells(run) + tail == rest;
    }
  }

  lemma {:induction false} PendingIsShort(previous: int, count: int, others: seq<Run>)
    requires 1 <= count <= MAX_COUNT && ByteCounts(others)
    ensures |Pending(previous, count, Expand(others))| <= 1 + |others|
    decreases |others|
  {
    if others != [] {
      var run, tail := others[0], Expand(others[1..]);
      if run.color == previous && count + run.length <= MAX_COUNT {
        Absorb(previous, count, run.length, tail);
        PendingIsShort(previous, count + run.length, others[1..]);
      } else {
        Overflow(previous, count, run, tail);
        PendingIsShort(run.color, run.length - (if run.color == previous then MAX_COUNT - count else 0), others[1..]);
      }
    }
  }

  lemma FirstRun(run: Run, tail: seq<int>)
    requires 1 <= run.length <= MAX_COUNT
    ensures Greedy(RunCells(run) + tail) == Pending(run.color, run.length, tail)
  {
    var data := RunCells(run) + tail;
    assert data[1..] == Repeat(run.color, run.length - 1) + tail;
    Absorb(run.color, 1, run.length - 1, tail);
  }

  /** No run list with one-byte counts that stands for the same data is shorter. */
  lemma GreedyIsShortest(data: seq<int>, others: seq<Run>)
    requires ByteCounts(others) && Expand(others) == data
    ensures |Greedy(data)| <= |others|
  {
    if others != [] {
      FirstRun(others[0], Expand(others[1..]));
      PendingIsShort(others[0].color, others[0].length, others[1..]);
    }
  }
}
