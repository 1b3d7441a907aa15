/**
 * The per-process nesting counters that `begin` and `end` keep and that
 * `clear` uses to close the spans left open.  PHP's `null--` is still
 * null, and a null entry is not `isset`, so an `end` for a process with
 * no counter leaves it without one.  `EndedCounting` is the decrement a
 * balanced trace expects instead; it is stated beside the source's own,
 * which the rest of the model follows.
 */
module Depths {

  type DepthTable = map<int, int>

  /** The counter after `begin` in process `pid`: an unset counter starts from 0. */
  function Begun(depths: DepthTable, pid: int): (r: DepthTable)
    ensures pid in r
  {
    depths[pid := (if pid in depths then depths[pid] else 0) + 1]
  }

  /** The counter after `end` in process `pid`: decremented with no lower bound, and left unset when unset. */
  function Ended(depths: DepthTable, pid: int): DepthTable
  {
    if pid in depths then depths[pid := depths[pid] - 1] else depths
  }

  /** `begin` and `end` touch only the calling process's counter, and `end` never removes it. */
  lemma OnlyOwnCounter(depths: DepthTable, pid: int, other: int)
    requires other != pid
    ensures other in Begun(depths, pid) <==> other in depths
    ensures other in Ended(depths, pid) <==> other in depths
    ensures other in depths ==> Begun(depths, pid)[other] == depths[other] && Ended(depths, pid)[other] == depths[other]
    ensures pid in Ended(depths, pid) <==> pid in depths
    ensures pid in depths ==> Ended(depths, pid)[pid] == depths[pid] - 1
    ensures Begun(depths, pid)[pid] == (if pid in depths then depths[pid] + 1 else 1)
  {
  }

  /** An `end` after `k` of them takes the counter `k + 1` below where it started. */
  lemma EndedAgain(depths: DepthTable, pid: int, k: int)
    requires pid in depths
    ensures Ended(depths[pid := depths[pid] - k], pid) == depths[pid := depths[pid] - (k + 1)]
  {
  }

  /** An `end` undoes a `begin`, except that the counter now exists. */
  lemma EndUndoesBegin(depths: DepthTable, pid: int)
    ensures Ended(Begun(depths, pid), pid) == if pid in depths then depths else depths[pid := 0]
  {
  }

  /** The counter after a series of calls in process `pid`: `true` is a `begin`, `false` an `end`. */
  function Replay(depths: DepthTable, pid: int, calls: seq<bool>): DepthTable
    decreases |calls|
  {
    if calls == [] then depths
    else Replay(if calls[0] then Begun(depths, pid) else Ended(depths, pid), pid, calls[1..])
  }

  /** How many of the calls are `begin` (`true`) or `end` (`false`). */
  function Count(calls: seq<bool>, kind: bool): nat
  {
    if calls == [] then 0 else (if calls[0] == kind then 1 else 0) + Count(calls[1..], kind)
  }

  /** From an existing counter, a series of calls adds the begins and subtracts the ends. */
  lemma {:induction false} ReplayCounts(depths: DepthTable, pid: int, calls: seq<bool>)
    requires pid in depths
    ensures pid in Replay(depths, pid, calls)
    ensures Replay(depths, pid, calls)[pid] == depths[pid] + Count(calls, true) - Count(calls, false)
    decreases |calls|
  {
    if calls != [] {
      ReplayCounts(if calls[0] then Begun(depths, pid) else Ended(depths, pid), pid, calls[1..]);
    }
  }

  /**
   * Equally many begins and ends bring the counter back to zero, when it
   * starts at zero or the first call is a `begin`.
   */
  lemma BalancedReturnsToZero(depths: DepthTable, pid: int, calls: seq<bool>)
    requires (pid in depths && depths[pid] == 0) || (pid !in depths && calls != [] && calls[0])
    requires Count(calls, true) == Count(calls, false)
    ensures pid in Replay(depths, pid, calls) && Replay(depths, pid, calls)[pid] == 0
  {
    if pid in depths {
      ReplayCounts(depths, pid, calls);
    } else {
      ReplayCounts(Begun(depths, pid), pid, calls[1..]);
    }
  }

  /**
   * An `end` before any `begin` is lost: end-then-begin leaves the counter
   * at 1, where the counting decrement brings it back to 0.
   */
  lemma EndBeforeBeginIsLost(pid: int)
    ensures Count([false, true], true) == Count([false, true], false)
    ensures Replay(map[], pid, [false, true]) == map[pid := 1]
    ensures ReplayCounting(map[], pid, [false, true]) == map[pid := 0]
  {
    assert [false, true][1..] == [true];
    assert [true][1..] == [];
  }

  /**
   * The decrement a balanced trace expects: an unset counter counts as 0,
   * so an `end` before any `begin` takes it to -1 instead of being lost.
   */
  function EndedCounting(depths: DepthTable, pid: int): (r: DepthTable)
    ensures pid in r
  {
    depths[pid := (if pid in depths then depths[pid] else 0) - 1]
  }

  /** `Replay` with the counting decrement. */
  function ReplayCounting(depths: DepthTable, pid: int, calls: seq<bool>): DepthTable
    decreases |calls|
  {
    if calls == [] then depths
    else ReplayCounting(if calls[0] then Begun(depths, pid) else EndedCounting(depths, pid), pid, calls[1..])
  }

  /** With the counting decrement, any series of calls adds the begins and subtracts the ends, an unset counter counting as 0. */
  lemma {:induction false} ReplayCountingCounts(depths: DepthTable, pid: int, calls: seq<bool>)
    ensures calls != [] ==> pid in ReplayCounting(depths, pid, calls)
    ensures pid in ReplayCounting(depths, pid, calls) ==>
      ReplayCounting(depths, pid, calls)[pid] == (if pid in depths then depths[pid] else 0) + Count(calls, true) - Count(calls, false)
    decreases |calls|
  {
    if calls != [] {
      var next := if calls[0] then Begun(depths, pid) else EndedCounting(depths, pid);
      ReplayCountingCounts(next, pid, calls[1..]);
      if calls[1..] == [] {
        assert ReplayCounting(next, pid, calls[1..]) == next;
      }
    }
  }

  /** With the counting decrement, equally many begins and ends always bring a zero or unset counter back to zero. */
  lemma CountingBalancedReturnsToZero(depths: DepthTable, pid: int, calls: seq<bool>)
    requires pid !in depths || depths[pid] == 0
    requires Count(calls, true) == Count(calls, false)
    ensures pid in ReplayCounting(depths, pid, calls) ==> ReplayCounting(depths, pid, calls)[pid] == 0
    ensures calls != [] ==> pid in ReplayCounting(depths, pid, calls)
  {
    ReplayCountingCounts(depths, pid, calls);
  }

  /** Once the counter is set, the source's decrement and the counting one agree on every series of calls. */
  lemma {:induction false} ReplayAgreesWhenSet(depths: DepthTable, pid: int, calls: seq<bool>)
    requires pid in depths
    ensures Replay(depths, pid, calls) == ReplayCounting(depths, pid, calls)
    decreases |calls|
  {
    if calls != [] {
      var next := if calls[0] then Begun(depths, pid) else Ended(depths, pid);
      assert next == if calls[0] then Begun(depths, pid) else EndedCounting(depths, pid);
      ReplayAgreesWhenSet(next, pid, calls[1..]);
    }
  }

  /** How many End events `clear` emits: the counter, when it is set and positive. */
  function ClearCount(depths: DepthTable, pid: int): nat
  {
    if pid in depths && depths[pid] > 0 then depths[pid] else 0
  }

  /** `n` calls of `end`. */
  function Ends(n: nat): (r: seq<bool>)
    ensures |r| == n
  {
    seq(n, i => false)
  }

  /** `n` calls of `begin`. */
  function Begins(n: nat): (r: seq<bool>)
    ensures |r| == n
  {
    seq(n, i => true)
  }

  /** The counters after `clear`: a set counter ends at min(counter, 0), others are untouched. */
  lemma {:induction false} ClearBalances(depths: DepthTable, pid: int)
    ensures var after := Replay(depths, pid, Ends(ClearCount(depths, pid)));
      && (pid in after <==> pid in depths)
      && (pid in depths ==> after == depths[pid := if depths[pid] > 0 then 0 else depths[pid]])
      && (pid !in depths ==> after == depths)
    decreases ClearCount(depths, pid)
  {
    var n := ClearCount(depths, pid);
    if n > 0 {
      assert Ends(n)[1..] == Ends(n - 1);
      ClearBalances(Ended(depths, pid), pid);
      assert ClearCount(Ended(depths, pid), pid) == n - 1;
    }
  }

  /** After `n` unmatched begins from a zero or unset counter, `clear` emits exactly `n` Ends. */
  lemma {:induction false} ClearAfterBegins(depths: DepthTable, pid: int, n: nat)
    requires pid !in depths || depths[pid] == 0
    ensures ClearCount(Replay(depths, pid, Begins(n)), pid) == n
  {
    if n == 0 {
      assert Begins(0) == [];
    } else {
      var start := Begun(depths, pid);
      assert Begins(n)[1..] == Begins(n - 1);
      ReplayCounts(start, pid, Begins(n - 1));
      CountAll(Begins(n - 1), true);
    }
  }

  /** A series of calls all of one kind counts each of them. */
  lemma {:induction false} CountAll(calls: seq<bool>, kind: bool)
    requires forall i :: 0 <= i < |calls| ==> calls[i] == kind
    ensures Count(calls, kind) == |calls| && Count(calls, !kind) == 0
  {
    if calls != [] {
      CountAll(calls[1..], kind);
    }
  }
}
