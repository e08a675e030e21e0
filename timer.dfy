/**
  The phase timer of src/util/timer.cpp.

  The timer is a list of items and a nesting level. Pushing appends a running
  item at the current level and goes one level deeper; popping completes the
  most recently pushed item that is still running and goes one level up. Clock
  readings are opaque `real` time points passed in by the caller, and the
  conversion of an interval to seconds is a parameter.
 */
module Timing {

  /** The duration of an item that has not been popped yet. */
  const RUNNING: real := -1.0

  /** timer_item_t: a name, a nesting level, start and end time points and a duration in seconds. */
  datatype Item = Item(name: string, level: int, start: real, end: real, duration: real)
  {
    predicate Running() {
      duration == RUNNING
    }

    /** The width timer_print gives the item's indented name: two columns per level. */
    function Width(): int {
      2 * level + |name|
    }
  }

  /** The number of running items. */
  function RunningCount(s: seq<Item>): nat {
    if s == [] then 0
    else RunningCount(s[..|s| - 1]) + (if s[|s| - 1].Running() then 1 else 0)
  }

  /** The position of the last running item, or -1 when no item runs. */
  function LastRunning(s: seq<Item>): (r: int)
    ensures -1 <= r < |s|
    ensures r >= 0 ==> s[r].Running()
    ensures forall u :: r < u < |s| ==> !s[u].Running()
  {
    if s == [] then -1
    else if s[|s| - 1].Running() then |s| - 1
    else LastRunning(s[..|s| - 1])
  }

  /** Some item runs exactly when the running count is positive. */
  lemma {:induction false} RunningCountPositive(s: seq<Item>)
    ensures RunningCount(s) > 0 <==> LastRunning(s) >= 0
  {
    if s != [] {
      RunningCountPositive(s[..|s| - 1]);
    }
  }

  /** Appending an item adds one to the running count when the item runs. */
  lemma {:induction false} RunningCountSnoc(s: seq<Item>, x: Item)
    ensures RunningCount(s + [x]) == RunningCount(s) + (if x.Running() then 1 else 0)
  {
    assert (s + [x])[..|s + [x]| - 1] == s;
  }

  /** Completing one running item lowers the running count by one. */
  lemma {:induction false} RunningCountStop(s: seq<Item>, r: nat, x: Item)
    requires r < |s| && s[r].Running() && !x.Running()
    ensures RunningCount(s[r := x]) == RunningCount(s) - 1
  {
    var p := s[..|s| - 1];
    var t := s[r := x];
    assert t[..|t| - 1] == if r == |s| - 1 then p else p[r := x];
    if r < |s| - 1 {
      RunningCountStop(p, r, x);
    }
  }

  /** The global timekeeper_t: the items pushed so far and the current nesting level. */
  class Timer {
    var items: seq<Item>
    var level: int

    /** The level counts the running items: what every push/pop sequence from an empty timer keeps. */
    ghost predicate Balanced()
      reads this
    {
      level == RunningCount(items)
    }

    /** The empty timer (the global object's initial state). */
    constructor ()
      ensures items == [] && level == 0
      ensures Balanced()
    {
      items := [];
      level := 0;
    }

    /** timer_push at time point now: one more running item at the current level, then one level deeper. */
    method Push(name: string, now: real)
      modifies this
      ensures items == old(items) + [Item(name, old(level), now, 0.0, RUNNING)]
      ensures level == old(level) + 1
      ensures old(Balanced()) ==> Balanced()
    {
      var item := Item(name, level, now, 0.0, RUNNING);
      RunningCountSnoc(items, item);
      items := items + [item];
      level := level + 1;
    }

    /**
      timer_pop at time point now: scans back from the newest item to the
      first one still running; the source asserts that there is one. That
      item gets end time now and duration seconds(start, now); the level goes
      one up, and no other item changes.
     */
    method Pop(now: real, seconds: (real, real) -> real) returns (d: real)
      requires exists u :: 0 <= u < |items| && items[u].Running()
      modifies this
      ensures 0 <= LastRunning(old(items))
      ensures d == seconds(old(items)[LastRunning(old(items))].start, now)
      ensures items == old(items)[LastRunning(old(items)) := old(items)[LastRunning(old(items))].(end := now, duration := d)]
      ensures level == old(level) - 1
      ensures old(Balanced()) && d != RUNNING ==> Balanced()
    {
      var t := |items|;
      while t > 0 && !items[t - 1].Running()
        invariant 0 <= t <= |items|
        invariant forall u :: t <= u < |items| ==> !items[u].Running()
      {
        t := t - 1;
      }
      assert t > 0;
      var r := t - 1;
      assert r == LastRunning(items);
      d := seconds(items[r].start, now);
      var done := items[r].(end := now, duration := d);
      if d != RUNNING {
        RunningCountStop(items, r, done);
      }
      items := items[r := done];
      level := level - 1;
    }

    /** A balanced timer at a positive level has a running item, so pop's assertion holds. */
    lemma BalancedCanPop()
      requires Balanced() && level > 0
      ensures exists u :: 0 <= u < |items| && items[u].Running()
    {
      RunningCountPositive(items);
      assert items[LastRunning(items)].Running();
    }

    /** The max_len loop of timer_print: the widest indented name, or 0 when there are no items. */
    method MaxWidth() returns (maxLen: int)
      ensures 0 <= maxLen
      ensures forall u :: 0 <= u < |items| ==> items[u].Width() <= maxLen
      ensures maxLen == 0 || exists u :: 0 <= u < |items| && items[u].Width() == maxLen
    {
      maxLen := 0;
      for t := 0 to |items|
        invariant 0 <= maxLen
        invariant forall u :: 0 <= u < t ==> items[u].Width() <= maxLen
        invariant maxLen == 0 || exists u :: 0 <= u < t && items[u].Width() == maxLen
      {
        var len := items[t].Width();
        if maxLen < len {
          maxLen := len;
        }
      }
    }
  }
}
