/** The two classical schedulers the learned ones are compared against
    (RR_SRTF.c): round robin with a fixed quantum and shortest remaining
    time first, both over arrival and burst times, both computing each
    process's waiting time. Integers are unbounded: overflow of `time` is
    not modelled. */
module Baselines {
  import opened Numbers

  /** INT_MAX of a 32-bit int: the "no candidate" value of min_remaining. */
  const IntMax: int := 2147483647

  /** The largest element, or 0 for an empty sequence. */
  function MaxOf(s: seq<int>): (m: int)
    ensures forall k :: 0 <= k < |s| ==> s[k] <= m
  {
    if |s| == 0 then 0
    else
      var rest := MaxOf(s[1..]);
      assert forall k :: 1 <= k < |s| ==> s[k] == s[1..][k - 1];
      if s[0] >= rest then s[0] else rest
  }

  // ---------------------------------------------------------------------
  // Round robin
  // ---------------------------------------------------------------------

  /** Process with arrival `a` and remaining burst `r` can run at `time`. */
  predicate Ready(a: int, r: int, time: int) {
    a <= time && r > 0
  }

  /** What round robin keeps true of every process (arrival a, burst b,
      remaining r, waiting w) at time `time`: either it has not run
      (r == b, w == 0), or it has, its remaining burst is between 0 and b,
      it arrived early enough to have received the work it got by `time`,
      and once finished its waiting time is non-negative and its finish
      time a + b + w is not after `time`. */
  predicate RRSlot(a: int, b: int, r: int, w: int, time: int) {
    || (r == b && w == 0)
    || (&& 0 <= r < b
        && a + b - r <= time
        && (r == 0 ==> 0 <= w && a + b + w <= time)
        && (0 < r ==> w == 0))
  }

  predicate RRState(arrival: seq<int>, burst: seq<int>, rem: seq<int>, waiting: seq<int>, time: int)
    requires |arrival| == |burst| == |rem| == |waiting|
  {
    forall k :: 0 <= k < |rem| ==> RRSlot(arrival[k], burst[k], rem[k], waiting[k], time)
  }

  /** The search of round_robin for a process that could run now. */
  method NoReadyProcess(arrival: seq<int>, rem: seq<int>, time: int) returns (none: bool)
    requires |arrival| == |rem|
    ensures none <==> forall k :: 0 <= k < |rem| ==> !Ready(arrival[k], rem[k], time)
  {
    none := true;
    var i := 0;
    while i < |rem|
      invariant 0 <= i <= |rem|
      invariant none <==> forall k :: 0 <= k < i ==> !Ready(arrival[k], rem[k], time)
    {
      if arrival[i] <= time && rem[i] > 0 {
        none := false;
        break;
      }
      i := i + 1;
    }
  }

  /** Lines 51-58 of round_robin for process i: run it for
      min(quantum, remaining); if that finishes it, record its waiting time
      as finish - burst - arrival. */
  function RunSlot(arrival: seq<int>, burst: seq<int>, quantum: int,
                   time: int, rem: seq<int>, waiting: seq<int>, i: nat): (int, seq<int>, seq<int>)
    requires |arrival| == |burst| == |rem| == |waiting| && i < |rem|
  {
    if rem[i] > quantum then (time + quantum, rem[i := rem[i] - quantum], waiting)
    else
      var finish := time + rem[i];
      (finish, rem[i := 0], waiting[i := finish - burst[i] - arrival[i]])
  }

  /** Running a ready process keeps every process's round-robin slot. */
  lemma RunSlotKeepsState(arrival: seq<int>, burst: seq<int>, quantum: int,
                          time: int, rem: seq<int>, waiting: seq<int>, i: nat)
    requires quantum >= 1
    requires |arrival| == |burst| == |rem| == |waiting| && i < |rem|
    requires RRState(arrival, burst, rem, waiting, time) && Ready(arrival[i], rem[i], time)
    ensures var next := RunSlot(arrival, burst, quantum, time, rem, waiting, i);
            RRState(arrival, burst, next.1, next.2, next.0)
  {
    var next := RunSlot(arrival, burst, quantum, time, rem, waiting, i);
    assert next.0 >= time;
    assert RRSlot(arrival[i], burst[i], rem[i], waiting[i], time);
    assert RRSlot(arrival[i], burst[i], next.1[i], next.2[i], next.0);
    forall k | 0 <= k < |rem| ensures RRSlot(arrival[k], burst[k], next.1[k], next.2[k], next.0) {
      if k != i {
        assert RRSlot(arrival[k], burst[k], rem[k], waiting[k], time);
        assert next.1[k] == rem[k] && next.2[k] == waiting[k];
      }
    }
  }

  /** The clock, the remaining bursts and the waiting times after one slot,
      whatever state the slot runs in. */
  lemma RunSlotShape(arrival: seq<int>, burst: seq<int>, quantum: int,
                     time: int, rem: seq<int>, waiting: seq<int>, i: nat)
    requires |arrival| == |burst| == |rem| == |waiting| && i < |rem|
    ensures var next := RunSlot(arrival, burst, quantum, time, rem, waiting, i);
            && next.0 == time + Min(quantum, rem[i])
            && next.1 == rem[i := rem[i] - Min(quantum, rem[i])]
            && (rem[i] > quantum ==> next.2 == waiting)
            && (rem[i] <= quantum ==> next.2 == waiting[i := next.0 - burst[i] - arrival[i]])
  {
    if rem[i] > quantum {
      assert Min(quantum, rem[i]) == quantum;
    } else {
      assert Min(quantum, rem[i]) == rem[i];
    }
  }

  /** Running a ready process hands it min(quantum, remaining) units of
      work: the clock and both work sums move by exactly that amount, only
      its remaining burst changes, it gets a waiting time exactly when it
      finishes, and the round-robin state is kept. */
  lemma RunSlotEffect(arrival: seq<int>, burst: seq<int>, quantum: int,
                      time: int, rem: seq<int>, waiting: seq<int>, i: nat)
    requires quantum >= 1
    requires |arrival| == |burst| == |rem| == |waiting| && i < |rem|
    requires RRState(arrival, burst, rem, waiting, time) && Ready(arrival[i], rem[i], time)
    ensures RunSlot(arrival, burst, quantum, time, rem, waiting, i).0 == time + Min(quantum, rem[i])
    ensures RunSlot(arrival, burst, quantum, time, rem, waiting, i).1 == rem[i := rem[i] - Min(quantum, rem[i])]
    ensures rem[i] > quantum ==> RunSlot(arrival, burst, quantum, time, rem, waiting, i).2 == waiting
    ensures rem[i] <= quantum ==>
              RunSlot(arrival, burst, quantum, time, rem, waiting, i).2
              == waiting[i := time + rem[i] - burst[i] - arrival[i]]
    ensures var next := RunSlot(arrival, burst, quantum, time, rem, waiting, i);
            RRState(arrival, burst, next.1, next.2, next.0)
    ensures Sum(rem[i := rem[i] - Min(quantum, rem[i])]) == Sum(rem) - Min(quantum, rem[i])
    ensures PosSum(rem[i := rem[i] - Min(quantum, rem[i])]) == PosSum(rem) - Min(quantum, rem[i])
  {
    RunSlotShape(arrival, burst, quantum, time, rem, waiting, i);
    SumUpdate(rem, i, rem[i] - Min(quantum, rem[i]));
    RunSlotKeepsState(arrival, burst, quantum, time, rem, waiting, i);
  }

  /** Work a sweep that turned remaining bursts `r0` into `r` handed to the
      processes before k: the clock has advanced by exactly this much when
      process k's turn comes. */
  function Handed(r0: seq<int>, r: seq<int>, k: nat): int
    requires |r0| == |r| && k <= |r|
  {
    if k == 0 then 0 else Handed(r0, r, k - 1) + r0[k - 1] - r[k - 1]
  }

  /** Handed only looks at the processes before k. */
  lemma {:induction false} HandedPrefix(r0: seq<int>, a: seq<int>, b: seq<int>, i: nat)
    requires |r0| == |a| == |b| && i <= |a|
    requires forall k :: 0 <= k < i ==> a[k] == b[k]
    ensures forall j :: 0 <= j <= i ==> Handed(r0, a, j) == Handed(r0, b, j)
  {
    if i > 0 {
      HandedPrefix(r0, a, b, i - 1);
    }
  }

  /** Process k's turn in a sweep that started at `t0` from remaining bursts
      `r0` and left `r`: it runs exactly when it has arrived and has work
      at the moment its turn comes. */
  predicate RunsAtTurn(arrival: seq<int>, t0: int, r0: seq<int>, r: seq<int>, k: nat)
    requires |arrival| == |r0| == |r| && k < |r|
  {
    Ready(arrival[k], r0[k], t0 + Handed(r0, r, k))
  }

  /** The first i turns of a sweep from (t0, r0, w0) have produced
      (t, r, w): each process before i that was ready at its turn got
      min(quantum, remaining), and if that finished it, its waiting time is
      the clock at the end of its turn minus burst and arrival; the others
      are untouched, and the clock has advanced by the work handed out. */
  predicate SweepUpTo(arrival: seq<int>, burst: seq<int>, quantum: int,
                      t0: int, r0: seq<int>, w0: seq<int>,
                      t: int, r: seq<int>, w: seq<int>, i: nat)
    requires |arrival| == |burst| == |r0| == |w0| == |r| == |w| && i <= |r|
  {
    && t == t0 + Handed(r0, r, i)
    && (forall k :: 0 <= k < i ==>
          r[k] == if RunsAtTurn(arrival, t0, r0, r, k) then r0[k] - Min(quantum, r0[k]) else r0[k])
    && (forall k :: 0 <= k < i ==>
          w[k] == if RunsAtTurn(arrival, t0, r0, r, k) && r0[k] <= quantum
                  then t0 + Handed(r0, r, k + 1) - burst[k] - arrival[k]
                  else w0[k])
    && (forall k :: i <= k < |r| ==> r[k] == r0[k] && w[k] == w0[k])
  }

  /** One more turn of the sweep. */
  lemma SweepStep(arrival: seq<int>, burst: seq<int>, quantum: int,
                  t0: int, r0: seq<int>, w0: seq<int>,
                  t: int, r: seq<int>, w: seq<int>, i: nat)
    requires quantum >= 1
    requires |arrival| == |burst| == |r0| == |w0| == |r| == |w| && i < |r|
    requires SweepUpTo(arrival, burst, quantum, t0, r0, w0, t, r, w, i)
    ensures var next := if Ready(arrival[i], r[i], t) then RunSlot(arrival, burst, quantum, t, r, w, i) else (t, r, w);
            && |next.1| == |next.2| == |r|
            && SweepUpTo(arrival, burst, quantum, t0, r0, w0, next.0, next.1, next.2, i + 1)
  {
    var next := if Ready(arrival[i], r[i], t) then RunSlot(arrival, burst, quantum, t, r, w, i) else (t, r, w);
    HandedPrefix(r0, r, next.1, i);
    assert forall k :: 0 <= k < i ==> RunsAtTurn(arrival, t0, r0, next.1, k) == RunsAtTurn(arrival, t0, r0, r, k);
    assert RunsAtTurn(arrival, t0, r0, next.1, i) == Ready(arrival[i], r[i], t);
  }

  /** Turn i of a sweep: the process runs if it is ready now. */
  function Turn(arrival: seq<int>, burst: seq<int>, quantum: int,
                t: int, r: seq<int>, w: seq<int>, i: nat): (int, seq<int>, seq<int>)
    requires |arrival| == |burst| == |r| == |w| && i < |r|
  {
    if Ready(arrival[i], r[i], t) then RunSlot(arrival, burst, quantum, t, r, w, i) else (t, r, w)
  }

  /** What the sweep loop keeps after i turns, with `ran` recording whether
      any turn so far ran a process. */
  predicate SweepInv(arrival: seq<int>, burst: seq<int>, quantum: int,
                     t0: int, r0: seq<int>, w0: seq<int>,
                     t: int, r: seq<int>, w: seq<int>, ran: bool, i: nat)
    requires |arrival| == |burst| == |r0| == |w0|
  {
    && |r| == |w| == |r0| && i <= |r0|
    && SweepUpTo(arrival, burst, quantum, t0, r0, w0, t, r, w, i)
    && RRState(arrival, burst, r, w, t)
    && t0 <= t && t - t0 == Sum(r0) - Sum(r)
    && (forall k :: 0 <= k < i && Ready(arrival[k], r0[k], t0) ==> r[k] == r0[k] - Min(quantum, r0[k]))
    && (ran ==> PosSum(r) < PosSum(r0) && Sum(r) < Sum(r0))
    && (ran <==> exists k :: 0 <= k < i && Ready(arrival[k], r0[k], t0))
    && (!ran ==> t == t0 && r == r0 && w == w0)
  }

  lemma TurnKeeps(arrival: seq<int>, burst: seq<int>, quantum: int,
                  t0: int, r0: seq<int>, w0: seq<int>,
                  t: int, r: seq<int>, w: seq<int>, ran: bool, i: nat)
    requires quantum >= 1
    requires |arrival| == |burst| == |r0| == |w0| && i < |r0|
    requires RRState(arrival, burst, r0, w0, t0)
    requires SweepInv(arrival, burst, quantum, t0, r0, w0, t, r, w, ran, i)
    ensures var next := Turn(arrival, burst, quantum, t, r, w, i);
            SweepInv(arrival, burst, quantum, t0, r0, w0, next.0, next.1, next.2,
                     ran || Ready(arrival[i], r[i], t), i + 1)
  {
    SweepStep(arrival, burst, quantum, t0, r0, w0, t, r, w, i);
    var next := Turn(arrival, burst, quantum, t, r, w, i);
    assert Ready(arrival[i], r0[i], t0) ==> Ready(arrival[i], r[i], t);
    if Ready(arrival[i], r[i], t) {
      RunSlotEffect(arrival, burst, quantum, t, r, w, i);
      assert next.1 == r[i := r[i] - Min(quantum, r[i])];
      assert forall k :: 0 <= k < i ==> next.1[k] == r[k];
      assert PosSum(next.1) < PosSum(r0) && Sum(next.1) < Sum(r0);
      assert exists k :: 0 <= k < i + 1 && Ready(arrival[k], r0[k], t0) by {
        if !ran {
          assert Ready(arrival[i], r0[i], t0);
        }
      }
    } else {
      assert next == (t, r, w);
      assert !Ready(arrival[i], r0[i], t0);
    }
  }

  /** One sweep of round_robin over the processes in index order
      (lines 47-60): each process that has arrived and still has work when
      its turn comes runs for min(quantum, remaining), the clock advancing
      by that amount, and one that finishes records its finish time minus
      burst and arrival as its waiting time. `ran` is false (`done == 1`)
      exactly when nobody was ready when the sweep began. */
  method RoundRobinPass(arrival: seq<int>, burst: seq<int>, quantum: int,
                        time0: int, rem0: seq<int>, wait0: seq<int>)
    returns (time: int, rem: seq<int>, waiting: seq<int>, ran: bool)
    requires quantum >= 1
    requires |arrival| == |burst| == |rem0| == |wait0|
    requires RRState(arrival, burst, rem0, wait0, time0)
    ensures |rem| == |waiting| == |rem0|
    ensures SweepUpTo(arrival, burst, quantum, time0, rem0, wait0, time, rem, waiting, |rem0|)
    ensures RRState(arrival, burst, rem, waiting, time)
    ensures time0 <= time && time - time0 == Sum(rem0) - Sum(rem)
    ensures forall k :: 0 <= k < |rem0| && Ready(arrival[k], rem0[k], time0) ==>
              rem[k] == rem0[k] - Min(quantum, rem0[k])
    ensures ran ==> PosSum(rem) < PosSum(rem0) && Sum(rem) < Sum(rem0)
    ensures ran <==> exists k :: 0 <= k < |rem0| && Ready(arrival[k], rem0[k], time0)
    ensures !ran ==> time == time0 && rem == rem0 && waiting == wait0
  {
    time, rem, waiting, ran := time0, rem0, wait0, false;
    var i := 0;
    while i < |rem0|
      invariant SweepInv(arrival, burst, quantum, time0, rem0, wait0, time, rem, waiting, ran, i)
    {
      TurnKeeps(arrival, burst, quantum, time0, rem0, wait0, time, rem, waiting, ran, i);
      ran := ran || (arrival[i] <= time && rem[i] > 0);
      var next := Turn(arrival, burst, quantum, time, rem, waiting, i);
      time, rem, waiting := next.0, next.1, next.2;
      i := i + 1;
    }
  }

  /** The variables of round_robin between sweeps. */
  datatype RRVars = RRVars(time: int, rem: seq<int>, waiting: seq<int>)

  /** Nobody who has arrived by `time` has work left. */
  predicate NoneReady(arrival: seq<int>, rem: seq<int>, time: int)
    requires |arrival| == |rem|
  {
    forall k :: 0 <= k < |rem| ==> !Ready(arrival[k], rem[k], time)
  }

  /** One iteration of the outer loop of round_robin that did not exit: a
      sweep from `s` that left the remaining bursts and waiting times of
      `s2`, followed by one idle clock step when nobody is ready after it. */
  predicate SweepThenIdle(arrival: seq<int>, burst: seq<int>, quantum: int, s: RRVars, s2: RRVars)
    requires |arrival| == |burst|
  {
    && |s.rem| == |s.waiting| == |s2.rem| == |s2.waiting| == |burst|
    && var mid := s.time + Handed(s.rem, s2.rem, |burst|);
       && SweepUpTo(arrival, burst, quantum, s.time, s.rem, s.waiting, mid, s2.rem, s2.waiting, |burst|)
       && s2.time == if NoneReady(arrival, s2.rem, mid) then mid + 1 else mid
  }

  /** The states round_robin is in at the start of each sweep: it starts at
      time 0 with every burst remaining and no waiting, and moves from one
      to the next only when somebody is ready. */
  ghost predicate RRTrace(arrival: seq<int>, burst: seq<int>, quantum: int, trace: seq<RRVars>)
    requires |arrival| == |burst|
  {
    && 1 <= |trace|
    && trace[0] == RRVars(0, burst, seq(|burst|, _ => 0))
    && forall j :: 0 <= j < |trace| - 1 ==>
         && |trace[j].rem| == |burst|
         && !NoneReady(arrival, trace[j].rem, trace[j].time)
         && SweepThenIdle(arrival, burst, quantum, trace[j], trace[j + 1])
  }

  /** A trace grows by one sweep from its last state, if somebody was
      ready there. */
  lemma RRTraceExtend(arrival: seq<int>, burst: seq<int>, quantum: int, trace: seq<RRVars>, s2: RRVars)
    requires |arrival| == |burst| && RRTrace(arrival, burst, quantum, trace)
    requires |trace[|trace| - 1].rem| == |burst|
    requires !NoneReady(arrival, trace[|trace| - 1].rem, trace[|trace| - 1].time)
    requires SweepThenIdle(arrival, burst, quantum, trace[|trace| - 1], s2)
    ensures RRTrace(arrival, burst, quantum, trace + [s2])
  {
    var t := trace + [s2];
    forall j | 0 <= j < |t| - 1
      ensures && |t[j].rem| == |burst|
              && !NoneReady(arrival, t[j].rem, t[j].time)
              && SweepThenIdle(arrival, burst, quantum, t[j], t[j + 1])
    {
      assert t[j] == trace[j];
      if j < |trace| - 1 {
        assert t[j + 1] == trace[j + 1];
      }
    }
  }

  /** Two sweeps from the same start agree on the first i processes: each
      turn is fixed by the turns before it. */
  lemma {:induction false} SweepAgree(arrival: seq<int>, burst: seq<int>, quantum: int,
                                      t0: int, r0: seq<int>, w0: seq<int>,
                                      t: int, r: seq<int>, w: seq<int>,
                                      t': int, r': seq<int>, w': seq<int>, i: nat)
    requires |arrival| == |burst| == |r0| == |w0| == |r| == |w| == |r'| == |w'| && i <= |r|
    requires SweepUpTo(arrival, burst, quantum, t0, r0, w0, t, r, w, |r|)
    requires SweepUpTo(arrival, burst, quantum, t0, r0, w0, t', r', w', |r|)
    ensures forall k :: 0 <= k < i ==> r[k] == r'[k]
  {
    if i > 0 {
      SweepAgree(arrival, burst, quantum, t0, r0, w0, t, r, w, t', r', w', i - 1);
      HandedPrefix(r0, r, r', i - 1);
      assert RunsAtTurn(arrival, t0, r0, r, i - 1) == RunsAtTurn(arrival, t0, r0, r', i - 1);
    }
  }

  /** A whole sweep is determined by where it starts: the clock, the
      remaining bursts and the waiting times it ends with are unique. */
  lemma SweepUnique(arrival: seq<int>, burst: seq<int>, quantum: int,
                    t0: int, r0: seq<int>, w0: seq<int>,
                    t: int, r: seq<int>, w: seq<int>,
                    t': int, r': seq<int>, w': seq<int>)
    requires |arrival| == |burst| == |r0| == |w0| == |r| == |w| == |r'| == |w'|
    requires SweepUpTo(arrival, burst, quantum, t0, r0, w0, t, r, w, |r|)
    requires SweepUpTo(arrival, burst, quantum, t0, r0, w0, t', r', w', |r|)
    ensures t == t' && r == r' && w == w'
  {
    SweepAgree(arrival, burst, quantum, t0, r0, w0, t, r, w, t', r', w', |r|);
    assert r == r';
    assert forall k :: 0 <= k < |w| ==> w[k] == w'[k];
  }

  /** One loop iteration of round_robin has one outcome. */
  lemma SweepThenIdleUnique(arrival: seq<int>, burst: seq<int>, quantum: int, s: RRVars, a: RRVars, b: RRVars)
    requires |arrival| == |burst|
    requires SweepThenIdle(arrival, burst, quantum, s, a) && SweepThenIdle(arrival, burst, quantum, s, b)
    ensures a == b
  {
    var ma := s.time + Handed(s.rem, a.rem, |burst|);
    var mb := s.time + Handed(s.rem, b.rem, |burst|);
    SweepUnique(arrival, burst, quantum, s.time, s.rem, s.waiting, ma, a.rem, a.waiting, mb, b.rem, b.waiting);
  }

  /** Two round-robin traces from the same input agree wherever both are
      defined. */
  lemma {:induction false} RRTraceAgree(arrival: seq<int>, burst: seq<int>, quantum: int,
                                        t1: seq<RRVars>, t2: seq<RRVars>, j: nat)
    requires |arrival| == |burst|
    requires RRTrace(arrival, burst, quantum, t1) && RRTrace(arrival, burst, quantum, t2)
    requires j < |t1| && j < |t2|
    ensures t1[j] == t2[j]
  {
    if j > 0 {
      RRTraceAgree(arrival, burst, quantum, t1, t2, j - 1);
      SweepThenIdleUnique(arrival, burst, quantum, t1[j - 1], t1[j], t2[j]);
    }
  }

  /** round_robin has one outcome: two traces that both end where nobody is
      ready are the same trace, so the final clock, remaining bursts and
      waiting times RoundRobin returns are fixed by its input. */
  lemma RRTraceUnique(arrival: seq<int>, burst: seq<int>, quantum: int, t1: seq<RRVars>, t2: seq<RRVars>)
    requires |arrival| == |burst|
    requires RRTrace(arrival, burst, quantum, t1) && RRTrace(arrival, burst, quantum, t2)
    requires |t1[|t1| - 1].rem| == |burst| && NoneReady(arrival, t1[|t1| - 1].rem, t1[|t1| - 1].time)
    requires |t2[|t2| - 1].rem| == |burst| && NoneReady(arrival, t2[|t2| - 1].rem, t2[|t2| - 1].time)
    ensures t1 == t2
  {
    if |t1| < |t2| {
      RRTraceAgree(arrival, burst, quantum, t1, t2, |t1| - 1);
      assert false;
    } else if |t2| < |t1| {
      RRTraceAgree(arrival, burst, quantum, t1, t2, |t2| - 1);
      assert false;
    }
    forall j | 0 <= j < |t1| ensures t1[j] == t2[j] {
      RRTraceAgree(arrival, burst, quantum, t1, t2, j);
    }
  }

  /** The round-robin state holds at any later time. */
  lemma RRStateLater(arrival: seq<int>, burst: seq<int>, rem: seq<int>, waiting: seq<int>, t: int, t2: int)
    requires |arrival| == |burst| == |rem| == |waiting|
    requires RRState(arrival, burst, rem, waiting, t) && t <= t2
    ensures RRState(arrival, burst, rem, waiting, t2)
  {
  }

  /** A completed sweep followed by the idle check is one loop iteration. */
  lemma SweepThenIdleOf(arrival: seq<int>, burst: seq<int>, quantum: int,
                        s: RRVars, mid: int, rem: seq<int>, waiting: seq<int>, none: bool)
    requires |arrival| == |burst| == |s.rem| == |s.waiting| == |rem| == |waiting|
    requires SweepUpTo(arrival, burst, quantum, s.time, s.rem, s.waiting, mid, rem, waiting, |burst|)
    requires none <==> NoneReady(arrival, rem, mid)
    ensures SweepThenIdle(arrival, burst, quantum, s, RRVars(if none then mid + 1 else mid, rem, waiting))
  {
  }

  /** One iteration of the outer loop of round_robin (lines 45-74): a
      sweep, then, if the sweep ran something and nobody is ready after it,
      one idle clock step. `ran` is false exactly when nobody was ready at
      the start, and then nothing changes. */
  method RoundRobinStep(arrival: seq<int>, burst: seq<int>, quantum: int,
                        time0: int, rem0: seq<int>, wait0: seq<int>)
    returns (time: int, rem: seq<int>, waiting: seq<int>, ran: bool, idled: bool)
    requires quantum >= 1
    requires |arrival| == |burst| == |rem0| == |wait0|
    requires RRState(arrival, burst, rem0, wait0, time0)
    ensures |rem| == |waiting| == |rem0|
    ensures RRState(arrival, burst, rem, waiting, time)
    ensures ran <==> !NoneReady(arrival, rem0, time0)
    ensures !ran ==> time == time0 && rem == rem0 && waiting == wait0 && !idled
    ensures ran ==> SweepThenIdle(arrival, burst, quantum, RRVars(time0, rem0, wait0), RRVars(time, rem, waiting))
    ensures ran ==> PosSum(rem) < PosSum(rem0) && Sum(rem) < Sum(rem0)
    ensures time - time0 == Sum(rem0) - Sum(rem) + (if idled then 1 else 0)
  {
    time, rem, waiting, ran := RoundRobinPass(arrival, burst, quantum, time0, rem0, wait0);
    idled := false;
    if ran {
      var none := NoReadyProcess(arrival, rem, time);
      SweepThenIdleOf(arrival, burst, quantum, RRVars(time0, rem0, wait0), time, rem, waiting, none);
      if none {
        RRStateLater(arrival, burst, rem, waiting, time, time + 1);
        time, idled := time + 1, true;
      }
    }
  }

  /** round_robin as written: sweep until a sweep finds nobody to run; after
      a sweep that ran something, step the clock by 1 if nobody is ready.
      `trace` is the sequence of states at the start of each sweep, the
      last being the result; the sweep relation fixes every remaining burst
      and every waiting time. `idle` counts the single steps. At exit no
      process that has arrived by then has work left; the clock is the work
      done plus the idle steps, and there is at most one idle step per unit
      of work. */
  method RoundRobin(arrival: seq<int>, burst: seq<int>, quantum: int)
    returns (waiting: seq<int>, time: int, remaining: seq<int>, idle: nat, ghost trace: seq<RRVars>)
    requires |arrival| == |burst| && quantum >= 1
    ensures |waiting| == |remaining| == |burst|
    ensures RRTrace(arrival, burst, quantum, trace) && trace[|trace| - 1] == RRVars(time, remaining, waiting)
    ensures RRState(arrival, burst, remaining, waiting, time)
    ensures NoneReady(arrival, remaining, time)
    ensures time == Sum(burst) - Sum(remaining) + idle
    ensures idle <= Sum(burst) - Sum(remaining)
  {
    time, remaining, idle := 0, burst, 0;
    waiting := seq(|burst|, _ => 0);
    trace := [RRVars(time, remaining, waiting)];
    while true
      invariant |waiting| == |remaining| == |burst|
      invariant RRTrace(arrival, burst, quantum, trace) && trace[|trace| - 1] == RRVars(time, remaining, waiting)
      invariant RRState(arrival, burst, remaining, waiting, time)
      invariant time == Sum(burst) - Sum(remaining) + idle
      invariant idle <= Sum(burst) - Sum(remaining)
      decreases PosSum(remaining)
    {
      var ran, idled;
      time, remaining, waiting, ran, idled := RoundRobinStep(arrival, burst, quantum, time, remaining, waiting);
      if !ran {
        break;
      }
      if idled {
        idle := idle + 1;
      }
      RRTraceExtend(arrival, burst, quantum, trace, RRVars(time, remaining, waiting));
      trace := trace + [RRVars(time, remaining, waiting)];
    }
  }

  /** One process arriving at 0 with burst 3, quantum 2: it runs 2 units,
      is still ready at 2, runs its last unit and finishes at 3, so its
      waiting time is 3 - 3 - 0 = 0; nobody is ready after that sweep, so
      the clock steps once more to 4 before the loop ends. */
  method RoundRobinOneProcess() returns (waiting: seq<int>, time: int, remaining: seq<int>)
    ensures waiting == [0] && time == 4 && remaining == [0]
  {
    var idle;
    ghost var trace;
    waiting, time, remaining, idle, trace := RoundRobin([0], [3], 2);
    ghost var s0, s1, s2 := RRVars(0, [3], [0]), RRVars(2, [1], [0]), RRVars(4, [0], [0]);
    assert Handed([3], [1], 1) == 2;
    assert Handed([1], [0], 1) == 1;
    assert SweepUpTo([0], [3], 2, 0, [3], [0], 2, [1], [0], 1);
    assert SweepUpTo([0], [3], 2, 2, [1], [0], 3, [0], [0], 1);
    assert SweepThenIdle([0], [3], 2, s0, s1);
    assert SweepThenIdle([0], [3], 2, s1, s2);
    assert seq(1, _ => 0) == [0];
    assert !NoneReady([0], s0.rem, s0.time) && !NoneReady([0], s1.rem, s1.time);
    assert RRTrace([0], [3], 2, [s0, s1, s2]);
    RRTraceUnique([0], [3], 2, trace, [s0, s1, s2]);
  }

  /** Arrivals [0, 5], bursts [1, 1], quantum 2: P0 finishes at time 1, the
      clock steps to 2, the next sweep finds nobody ready and the loop ends,
      so P1 never runs and keeps waiting time 0. */
  method RoundRobinLeavesLateArrival() returns (remaining: seq<int>, waiting: seq<int>)
    ensures remaining == [0, 1] && |waiting| == 2 && waiting[1] == 0
  {
    var time, idle;
    ghost var trace;
    waiting, time, remaining, idle, trace := RoundRobin([0, 5], [1, 1], 2);
    assert Sum([1, 1]) == 2;
    assert Sum(remaining) == remaining[0] + remaining[1] by {
      assert remaining[1..][1..] == [];
    }
    assert RRSlot(0, 1, remaining[0], waiting[0], time);
    assert RRSlot(5, 1, remaining[1], waiting[1], time);
  }

  /** Round robin as evidently intended: the clock idles forward until the
      next arrival, and the loop ends only when no process has work left.
      Every process with a positive burst finishes, with a non-negative
      waiting time and its finish time a + b + w not after the end. */
  method RoundRobinIdle(arrival: seq<int>, burst: seq<int>, quantum: int)
    returns (waiting: seq<int>, time: int, remaining: seq<int>, idle: nat)
    requires |arrival| == |burst| && quantum >= 1
    ensures |waiting| == |remaining| == |burst|
    ensures RRState(arrival, burst, remaining, waiting, time)
    ensures forall k :: 0 <= k < |remaining| ==> remaining[k] <= 0
    ensures forall k :: 0 <= k < |burst| && 0 < burst[k] ==>
              remaining[k] == 0 && 0 <= waiting[k] && arrival[k] + burst[k] + waiting[k] <= time
    ensures time == Sum(burst) - Sum(remaining) + idle
  {
    time, remaining, idle := 0, burst, 0;
    waiting := seq(|burst|, _ => 0);
    var last := MaxOf(arrival);
    while true
      invariant |waiting| == |remaining| == |burst|
      invariant RRState(arrival, burst, remaining, waiting, time)
      invariant time == Sum(burst) - Sum(remaining) + idle
      decreases PosSum(remaining), last - time
    {
      var ran;
      time, remaining, waiting, ran := RoundRobinPass(arrival, burst, quantum, time, remaining, waiting);
      if forall k :: 0 <= k < |remaining| ==> remaining[k] <= 0 {
        break;
      }
      var none := NoReadyProcess(arrival, remaining, time);
      if none {
        if !ran {
          var k :| 0 <= k < |remaining| && remaining[k] > 0;
          assert time < arrival[k] <= last;
        }
        time := time + 1;
        idle := idle + 1;
      }
    }
  }

  // ---------------------------------------------------------------------
  // Shortest remaining time first
  // ---------------------------------------------------------------------

  /** Process k has arrived and is not completed. */
  predicate Eligible(arrival: seq<int>, done: seq<bool>, time: int, k: int)
    requires |arrival| == |done|
  {
    0 <= k < |arrival| && arrival[k] <= time && !done[k]
  }

  /** The selection sweep of srtf_scheduling from process i on, carrying the
      running choice and its bound: when some eligible process from i on
      has remaining time below the bound, the result is the eligible one
      with the least remaining time, the lowest index among equals, and the
      bound becomes its remaining time; otherwise both are kept. */
  function ScanShortest(arrival: seq<int>, rem: seq<int>, done: seq<bool>, time: int,
                        i: nat, shortest: int, minRem: int): (r: (int, int))
    requires |arrival| == |rem| == |done| && i <= |rem|
    ensures (exists k :: i <= k < |rem| && Eligible(arrival, done, time, k) && rem[k] < minRem) ==>
              && i <= r.0 < |rem|
              && Eligible(arrival, done, time, r.0)
              && r.1 == rem[r.0] < minRem
              && (forall k :: i <= k < |rem| && Eligible(arrival, done, time, k) ==> rem[r.0] <= rem[k])
              && (forall k :: i <= k < r.0 && Eligible(arrival, done, time, k) ==> rem[r.0] < rem[k])
    ensures (forall k :: i <= k < |rem| && Eligible(arrival, done, time, k) ==> minRem <= rem[k]) ==>
              r == (shortest, minRem)
    decreases |rem| - i
  {
    if i == |rem| then (shortest, minRem)
    else if arrival[i] <= time && !done[i] && rem[i] < minRem then
      ScanShortest(arrival, rem, done, time, i + 1, i, rem[i])
    else
      ScanShortest(arrival, rem, done, time, i + 1, shortest, minRem)
  }

  function CountTrue(s: seq<bool>): (n: nat)
    ensures n <= |s|
  {
    if |s| == 0 then 0 else (if s[0] then 1 else 0) + CountTrue(s[1..])
  }

  /** Setting an unset flag adds one to the count; the count reaches the
      length exactly when every flag is set. */
  lemma {:induction false} CountTrueSet(s: seq<bool>, j: nat)
    requires j < |s| && !s[j]
    ensures CountTrue(s[j := true]) == CountTrue(s) + 1
  {
    if j == 0 {
      assert s[j := true][1..] == s[1..];
    } else {
      assert s[j := true][1..] == s[1..][j - 1 := true];
      CountTrueSet(s[1..], j - 1);
    }
  }

  lemma {:induction false} CountTrueFull(s: seq<bool>)
    ensures CountTrue(s) == |s| <==> forall k :: 0 <= k < |s| ==> s[k]
  {
    if |s| > 0 {
      CountTrueFull(s[1..]);
      assert forall k :: 1 <= k < |s| ==> s[k] == s[1..][k - 1];
    }
  }

  lemma {:induction false} CountTrueNone(s: seq<bool>)
    requires forall k :: 0 <= k < |s| ==> !s[k]
    ensures CountTrue(s) == 0
  {
    if |s| > 0 {
      assert forall k :: 0 <= k < |s| - 1 ==> s[1..][k] == s[k + 1];
      CountTrueNone(s[1..]);
    }
  }

  /** Remaining time still owed to processes that are not completed. */
  function Pending(rem: seq<int>, done: seq<bool>): int
    requires |rem| == |done|
  {
    if |rem| == 0 then 0 else (if done[0] then 0 else rem[0]) + Pending(rem[1..], done[1..])
  }

  lemma {:induction false} PendingUpdate(rem: seq<int>, done: seq<bool>, j: nat, v: int, d: bool)
    requires |rem| == |done| && j < |rem|
    ensures Pending(rem[j := v], done[j := d])
            == Pending(rem, done) - (if done[j] then 0 else rem[j]) + (if d then 0 else v)
  {
    if j == 0 {
      assert rem[j := v][1..] == rem[1..] && done[j := d][1..] == done[1..];
    } else {
      assert rem[j := v][1..] == rem[1..][j - 1 := v];
      assert done[j := d][1..] == done[1..][j - 1 := d];
      PendingUpdate(rem[1..], done[1..], j - 1, v, d);
    }
  }

  /** With no process completed everything is pending; with all of them
      completed nothing is; it is never negative while the active processes
      owe non-negative time. */
  lemma {:induction false} PendingBounds(rem: seq<int>, done: seq<bool>)
    requires |rem| == |done|
    requires forall k :: 0 <= k < |rem| && !done[k] ==> 0 <= rem[k]
    ensures 0 <= Pending(rem, done)
    ensures (forall k :: 0 <= k < |rem| ==> !done[k]) ==> Pending(rem, done) == Sum(rem)
    ensures (forall k :: 0 <= k < |rem| ==> done[k]) ==> Pending(rem, done) == 0
  {
    if |rem| > 0 {
      assert forall k :: 0 <= k < |rem| - 1 ==> rem[1..][k] == rem[k + 1] && done[1..][k] == done[k + 1];
      PendingBounds(rem[1..], done[1..]);
    }
  }

  /** The variables of srtf_scheduling: remaining times, waiting times,
      completion flags, the completed counter, the current choice and its
      bound, and the clock. */
  datatype SrtfVars = SrtfVars(rem: seq<int>, waiting: seq<int>, done: seq<bool>,
                               completed: int, shortest: int, minRem: int, time: int)

  /** What srtf_scheduling keeps true between iterations: a process is
      completed exactly when its remaining time is no longer positive; a
      completed one has a non-negative waiting time and finished by now; an
      active one has received burst - remaining units, not before its
      arrival, and no waiting time yet; the current choice has arrived, and
      its bound is INT_MAX while the choice is absent or completed; the
      counter counts the flags; and the clock covers all work done. */
  ghost predicate SrtfInv(arrival: seq<int>, burst: seq<int>, v: SrtfVars)
    requires |arrival| == |burst|
  {
    && |v.rem| == |v.waiting| == |v.done| == |burst|
    && -1 <= v.shortest < |burst|
    && (v.shortest == -1 ==> v.minRem == IntMax)
    && (0 <= v.shortest ==> arrival[v.shortest] <= v.time && (v.done[v.shortest] ==> v.minRem == IntMax))
    && v.completed == CountTrue(v.done)
    && (forall k :: 0 <= k < |v.rem| && v.done[k] ==>
          v.rem[k] <= 0 && 0 <= v.waiting[k] && arrival[k] + burst[k] + v.waiting[k] <= v.time)
    && (forall k :: 0 <= k < |v.rem| && !v.done[k] ==>
          1 <= v.rem[k] <= burst[k] && v.waiting[k] == 0
          && (v.rem[k] < burst[k] ==> arrival[k] + burst[k] - v.rem[k] <= v.time))
    && Sum(burst) <= v.time + Pending(v.rem, v.done)
  }

  /** Lines 90-95: the selection sweep from index 0. */
  function Select(arrival: seq<int>, v: SrtfVars): SrtfVars
    requires |arrival| == |v.rem| == |v.done|
  {
    var pick := ScanShortest(arrival, v.rem, v.done, v.time, 0, v.shortest, v.minRem);
    v.(shortest := pick.0, minRem := pick.1)
  }

  /** Lines 102-111: one unit of work for the current choice, completing it
      when its remaining time reaches exactly 0. */
  function Work(arrival: seq<int>, burst: seq<int>, v: SrtfVars): SrtfVars
    requires |arrival| == |burst| == |v.rem| == |v.waiting| == |v.done|
    requires 0 <= v.shortest < |v.rem|
  {
    var s := v.shortest;
    var r := v.rem[s] - 1;
    if r == 0 then
      v.(rem := v.rem[s := r], done := v.done[s := true], completed := v.completed + 1,
         minRem := IntMax, waiting := v.waiting[s := v.time + 1 - burst[s] - arrival[s]],
         time := v.time + 1)
    else
      v.(rem := v.rem[s := r], time := v.time + 1)
  }

  /** The sweep keeps the invariant, and when it leaves no active choice no
      process is both arrived and active. */
  lemma SelectKeeps(arrival: seq<int>, burst: seq<int>, v: SrtfVars)
    requires |arrival| == |burst| && SrtfInv(arrival, burst, v)
    requires forall k :: 0 <= k < |burst| ==> burst[k] < IntMax
    ensures SrtfInv(arrival, burst, Select(arrival, v))
    ensures var s := Select(arrival, v).shortest;
            s == -1 || v.done[s] ==> forall k :: 0 <= k < |burst| ==> !Eligible(arrival, v.done, v.time, k)
  {
    if k :| 0 <= k < |burst| && Eligible(arrival, v.done, v.time, k) {
      if v.minRem == IntMax {
        assert v.rem[k] < v.minRem;
      }
    }
  }

  /** While some process is active but none has arrived, the clock is
      before the last arrival. */
  lemma WaitingForArrival(arrival: seq<int>, burst: seq<int>, v: SrtfVars, last: int)
    requires |arrival| == |burst| && SrtfInv(arrival, burst, v) && v.completed != |burst|
    requires forall k :: 0 <= k < |burst| ==> !Eligible(arrival, v.done, v.time, k)
    requires forall k :: 0 <= k < |arrival| ==> arrival[k] <= last
    ensures v.time < last
  {
    CountTrueFull(v.done);
    var k :| 0 <= k < |burst| && !v.done[k];
    assert !Eligible(arrival, v.done, v.time, k);
  }

  /** The clock moving on keeps the invariant. */
  lemma SrtfInvLater(arrival: seq<int>, burst: seq<int>, v: SrtfVars, t: int)
    requires |arrival| == |burst| && SrtfInv(arrival, burst, v) && v.time <= t
    ensures SrtfInv(arrival, burst, v.(time := t))
  {
  }

  /** A unit of work keeps the invariant and takes one unit from the
      pending work when the choice is active; a stale completed choice only
      has its (already non-positive) remaining time lowered again. */
  lemma WorkKeeps(arrival: seq<int>, burst: seq<int>, v: SrtfVars)
    requires |arrival| == |burst| && SrtfInv(arrival, burst, v) && 0 <= v.shortest
    ensures SrtfInv(arrival, burst, Work(arrival, burst, v))
    ensures Work(arrival, burst, v).time == v.time + 1
    ensures var w := Work(arrival, burst, v); var s := v.shortest;
            && w.rem == v.rem[s := v.rem[s] - 1]
            && (w.done != v.done <==> v.rem[s] == 1)
            && (w.completed == v.completed + 1 <==> v.rem[s] == 1)
            && (w.completed == v.completed <==> v.rem[s] != 1)
            && (v.rem[s] == 1 ==> w.minRem == IntMax && w.waiting[s] == v.time + 1 - burst[s] - arrival[s])
    ensures Pending(Work(arrival, burst, v).rem, Work(arrival, burst, v).done)
            == Pending(v.rem, v.done) - (if v.done[v.shortest] then 0 else 1)
  {
    var s := v.shortest;
    var r := v.rem[s] - 1;
    if r == 0 {
      PendingUpdate(v.rem, v.done, s, r, true);
      CountTrueSet(v.done, s);
    } else {
      PendingUpdate(v.rem, v.done, s, r, v.done[s]);
      assert v.done[s := v.done[s]] == v.done;
    }
  }

  /** The variables have the shape srtf_scheduling gives them for n
      processes: one entry per process, and a choice that is absent (-1) or
      names one of them. */
  predicate SrtfShape(n: nat, v: SrtfVars) {
    |v.rem| == |v.waiting| == |v.done| == n && -1 <= v.shortest < n
  }

  /** The variables on entry to the loop of srtf_scheduling (lines 80-87). */
  function SrtfStart(burst: seq<int>): (v: SrtfVars)
    ensures SrtfShape(|burst|, v)
  {
    SrtfVars(burst, seq(|burst|, _ => 0), seq(|burst|, _ => false), 0, -1, IntMax, 0)
  }

  /** One iteration of the loop of srtf_scheduling (lines 90-112): the
      selection sweep, then either an idle time unit when nothing was ever
      chosen, or one unit of work for the choice. */
  function SrtfLoopBody(arrival: seq<int>, burst: seq<int>, v: SrtfVars): (r: SrtfVars)
    requires |arrival| == |burst| && SrtfShape(|burst|, v)
    ensures SrtfShape(|burst|, r) && r.time == v.time + 1
  {
    var u := Select(arrival, v);
    if u.shortest == -1 then u.(time := u.time + 1) else Work(arrival, burst, u)
  }

  /** The variables after k iterations of the loop body. */
  function SrtfRun(arrival: seq<int>, burst: seq<int>, v: SrtfVars, k: nat): (r: SrtfVars)
    requires |arrival| == |burst| && SrtfShape(|burst|, v)
    ensures SrtfShape(|burst|, r) && r.time == v.time + k
  {
    if k == 0 then v else SrtfLoopBody(arrival, burst, SrtfRun(arrival, burst, v, k - 1))
  }

  /** One iteration of the loop keeps the invariant, and either takes a
      unit from the pending work or happens before the last arrival. */
  lemma SrtfLoopKeeps(arrival: seq<int>, burst: seq<int>, v: SrtfVars, last: int)
    requires |arrival| == |burst| && SrtfInv(arrival, burst, v) && v.completed != |burst|
    requires forall k :: 0 <= k < |burst| ==> 1 <= burst[k] < IntMax
    requires forall k :: 0 <= k < |arrival| ==> arrival[k] <= last
    ensures SrtfInv(arrival, burst, SrtfLoopBody(arrival, burst, v))
    ensures var w := SrtfLoopBody(arrival, burst, v);
            && 0 <= Pending(w.rem, w.done)
            && (Pending(w.rem, w.done) < Pending(v.rem, v.done)
                || (Pending(w.rem, w.done) == Pending(v.rem, v.done) && v.time < last))
  {
    PendingBounds(v.rem, v.done);
    SelectKeeps(arrival, burst, v);
    var u := Select(arrival, v);
    if u.shortest == -1 || u.done[u.shortest] {
      WaitingForArrival(arrival, burst, v, last);
    }
    if u.shortest == -1 {
      SrtfInvLater(arrival, burst, u, u.time + 1);
    } else {
      WorkKeeps(arrival, burst, u);
    }
    var w := SrtfLoopBody(arrival, burst, v);
    PendingBounds(w.rem, w.done);
  }

  /** `v` is what the loop of srtf_scheduling holds after `steps`
      iterations, and the loop has not stopped before. */
  ghost predicate SrtfReached(arrival: seq<int>, burst: seq<int>, v: SrtfVars, steps: nat)
    requires |arrival| == |burst|
  {
    && v == SrtfRun(arrival, burst, SrtfStart(burst), steps)
    && forall j :: 0 <= j < steps ==> SrtfRun(arrival, burst, SrtfStart(burst), j).completed != |burst|
  }

  /** The loop runs on past `steps` iterations when some process is still
      active after them. */
  lemma SrtfReachedNext(arrival: seq<int>, burst: seq<int>, v: SrtfVars, steps: nat)
    requires |arrival| == |burst| && SrtfReached(arrival, burst, v, steps) && v.completed != |burst|
    ensures SrtfShape(|burst|, v)
    ensures SrtfReached(arrival, burst, SrtfLoopBody(arrival, burst, v), steps + 1)
  {
  }

  /** Once every process is completed, each has a non-negative waiting
      time and finished by now, and the clock covers the total burst. */
  lemma SrtfFinished(arrival: seq<int>, burst: seq<int>, v: SrtfVars)
    requires |arrival| == |burst| && SrtfInv(arrival, burst, v) && v.completed == |burst|
    ensures forall k :: 0 <= k < |burst| ==>
              v.rem[k] <= 0 && 0 <= v.waiting[k] && arrival[k] + burst[k] + v.waiting[k] <= v.time
    ensures Sum(burst) <= v.time
  {
    CountTrueFull(v.done);
    PendingBounds(v.rem, v.done);
  }

  /** srtf_scheduling: each time unit, run the process the selection sweep
      settles on; the choice and its bound are kept between units, so the
      bound is stale after a unit of work and `shortest` still names a
      completed process until a new one is chosen. The result is the state
      after the first `steps` iterations of the loop body at which every
      process is completed, so the waiting times are exactly those the loop
      computes. Every process finishes with a non-negative waiting time and
      its finish time arrival + burst + waiting not after the end, and the
      run lasts at least the total burst. Bursts must be positive and below
      INT_MAX, or the loop does not end. */
  method Srtf(arrival: seq<int>, burst: seq<int>)
    returns (waiting: seq<int>, time: int, remaining: seq<int>, ghost steps: nat)
    requires |arrival| == |burst|
    requires forall k :: 0 <= k < |burst| ==> 1 <= burst[k] < IntMax
    ensures |waiting| == |remaining| == |burst|
    ensures var last := SrtfRun(arrival, burst, SrtfStart(burst), steps);
            && last.completed == |burst|
            && waiting == last.waiting && time == last.time && remaining == last.rem
    ensures forall j :: 0 <= j < steps ==> SrtfRun(arrival, burst, SrtfStart(burst), j).completed != |burst|
    ensures forall k :: 0 <= k < |burst| ==>
              remaining[k] <= 0 && 0 <= waiting[k] && arrival[k] + burst[k] + waiting[k] <= time
    ensures Sum(burst) <= time
  {
    var n := |burst|;
    var v := SrtfStart(burst);
    steps := 0;
    CountTrueNone(v.done);
    PendingBounds(v.rem, v.done);
    var last := MaxOf(arrival);
    while v.completed != n
      invariant SrtfInv(arrival, burst, v)
      invariant SrtfReached(arrival, burst, v, steps)
      decreases Pending(v.rem, v.done), last - v.time
    {
      SrtfLoopKeeps(arrival, burst, v, last);
      SrtfReachedNext(arrival, burst, v, steps);
      v := SrtfLoopBody(arrival, burst, v);
      steps := steps + 1;
    }
    SrtfFinished(arrival, burst, v);
    waiting, time, remaining := v.waiting, v.time, v.rem;
  }

  /** One iteration of srtf_scheduling on arrivals [0, 1], bursts [3, 1],
      from each state of that run to the next. */
  lemma SrtfTwoProcessesStep(k: nat)
    requires k < 4
    ensures SrtfLoopBody([0, 1], [3, 1], SrtfTwoState(k)) == SrtfTwoState(k + 1)
  {
    if k == 0 {
      assert Select([0, 1], SrtfTwoState(0)).shortest == 0;
    } else if k == 1 {
      assert Select([0, 1], SrtfTwoState(1)).shortest == 1;
    } else if k == 2 {
      assert Select([0, 1], SrtfTwoState(2)).shortest == 0;
    } else {
      assert Select([0, 1], SrtfTwoState(3)).shortest == 0;
    }
  }

  /** The states of srtf_scheduling on arrivals [0, 1], bursts [3, 1]. */
  function SrtfTwoState(k: nat): SrtfVars
    requires k <= 4
  {
    match k
    case 0 => SrtfVars([3, 1], [0, 0], [false, false], 0, -1, IntMax, 0)
    case 1 => SrtfVars([2, 1], [0, 0], [false, false], 0, 0, 3, 1)
    case 2 => SrtfVars([2, 0], [0, 0], [false, true], 1, 1, IntMax, 2)
    case 3 => SrtfVars([1, 0], [0, 0], [false, true], 1, 0, 2, 3)
    case _ => SrtfVars([0, 0], [1, 0], [true, true], 2, 0, IntMax, 4)
  }

  /** The first k iterations of that run end in its k-th state. */
  lemma {:induction false} SrtfTwoProcessesRun(k: nat)
    requires k <= 4
    ensures SrtfRun([0, 1], [3, 1], SrtfStart([3, 1]), k) == SrtfTwoState(k)
  {
    assert SrtfStart([3, 1]) == SrtfTwoState(0);
    if k > 0 {
      SrtfTwoProcessesRun(k - 1);
      SrtfTwoProcessesStep(k - 1);
    }
  }

  /** Arrivals [0, 1], bursts [3, 1]: P0 runs alone at time 0; at time 1 P1
      has 1 unit left against P0's 2, so it preempts and finishes at 2 with
      waiting time 0; P0 then runs its last two units and finishes at 4
      with waiting time 4 - 3 - 0 = 1. */
  method SrtfTwoProcesses() returns (waiting: seq<int>, time: int, remaining: seq<int>)
    ensures waiting == [1, 0] && time == 4 && remaining == [0, 0]
  {
    var arrival, burst := [0, 1], [3, 1];
    ghost var steps;
    waiting, time, remaining, steps := Srtf(arrival, burst);
    SrtfTwoProcessesRun(4);
    if steps < 4 {
      SrtfTwoProcessesRun(steps);
    }
  }
}
