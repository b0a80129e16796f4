/** The main loop of the Q-table simulator: learn, select, publish a
    snapshot, run the selected process for one quantum, age the others,
    resample the selected process, publish the final snapshot when all are
    done, and clear the row of a process that completed. Snapshots are
    modelled by their sequence number, the tables they hold and their
    trailer; their text format and the files they are written to are not. */
module Simulator {
  import opened Numbers
  import opened Processes
  import opened QTable

  /** The last line of a snapshot. */
  datatype Trailer = WillExecute(id: int) | AllDone

  datatype Snapshot = Snapshot(number: nat, procs: seq<Process>, q: Table, trailer: Trailer)

  /** The scheduler's state between iterations: the process table, the
      Q-table and the number the next snapshot will carry. */
  datatype Sim = Sim(procs: seq<Process>, q: Table, iteration: nat)

  /** Snapshots numbered consecutively from `first`. */
  ghost predicate Numbered(snaps: seq<Snapshot>, first: nat) {
    forall i :: 0 <= i < |snaps| ==> snaps[i].number == first + i
  }

  /** The snapshots one pass writes: one announcing `sel`, holding the
      tables as they were before it ran, and, when the pass left every
      process completed, the final one. */
  function PassSnapshots(iteration: nat, before: seq<Process>, q: Table, sel: int, after: seq<Process>): (snaps: seq<Snapshot>)
    ensures 1 <= |snaps| <= 2 && Numbered(snaps, iteration)
    ensures snaps[0] == Snapshot(iteration, before, q, WillExecute(sel))
    ensures |snaps| == 2 <==> AllCompleted(after)
    ensures |snaps| == 2 ==> snaps[1] == Snapshot(iteration + 1, after, q, AllDone)
  {
    var first := Snapshot(iteration, before, q, WillExecute(sel));
    if AllCompleted(after) then [first, Snapshot(iteration + 1, after, q, AllDone)] else [first]
  }

  /** One pass of the loop from `s`, with `d` the draw of update_state:
      learn from the current state, select on the learned table, write the
      pass's snapshots with the learned table, and advance on it. */
  ghost predicate SimPass(s: Sim, d: Draw, next: Sim, pass: seq<Snapshot>)
    requires |s.procs| <= |s.q|
  {
    var learned := UpdateQTable(s.procs, s.q);
    var sel := SelectAction(s.procs, learned);
    && 0 <= sel
    && (next.procs, next.q) == Advance(s.procs, learned, sel, d)
    && pass == PassSnapshots(s.iteration, s.procs, learned, sel, next.procs)
    && next.iteration == s.iteration + |pass|
  }

  /** One pass of the loop body, entered when some process is still active.
      Returns the next state and the snapshots written during the pass: the
      one announcing the selected process, taken after learning and before
      execution, and, if the pass completed the last process, the final one,
      taken before that process's row is zeroed. */
  method Iterate(s: Sim, d: Draw) returns (next: Sim, snaps: seq<Snapshot>)
    requires Consistent(s.procs, s.q) && !AllCompleted(s.procs)
    ensures Consistent(next.procs, next.q)
    ensures |next.procs| == |s.procs|
    ensures Quanta(next.procs) == Quanta(s.procs) - 1
    ensures forall i :: 0 <= i < |s.procs| && s.procs[i].completed ==> next.procs[i].completed
    ensures 1 <= |snaps| <= 2 && Numbered(snaps, s.iteration)
    ensures next.iteration == s.iteration + |snaps|
    ensures snaps[0].trailer.WillExecute?
    ensures IsSelection(s.procs, UpdateQTable(s.procs, s.q), snaps[0].trailer.id)
    ensures |snaps| == 2 <==> AllCompleted(next.procs)
    ensures |snaps| == 2 ==> snaps[1].trailer == AllDone
    ensures var sel := snaps[0].trailer.id;
            && 0 <= sel < |s.procs| && 0 < s.procs[sel].burst
            && TotalBurst(next.procs) == TotalBurst(s.procs) - Min(TimeQuantum, s.procs[sel].burst)
    ensures SimPass(s, d, next, snaps)
  {
    var q1 := UpdateQTable(s.procs, s.q);
    UpdateConsistent(s.procs, s.q);
    SelectionFindsActive(s.procs, q1);
    var sel := SelectAction(s.procs, q1);
    AdvanceConsistent(s.procs, q1, sel, d);
    AdvanceQuanta(s.procs, q1, sel, d);
    AdvanceKeepsCompleted(s.procs, q1, sel, d);
    ExecuteBurst(s.procs, sel, d);
    var after := Advance(s.procs, q1, sel, d);
    snaps := PassSnapshots(s.iteration, s.procs, q1, sel, after.0);
    next := Sim(after.0, after.1, s.iteration + |snaps|);
  }

  /** The snapshots of successive passes, in order. */
  function Concat(passes: seq<seq<Snapshot>>): seq<Snapshot> {
    if |passes| == 0 then [] else Concat(passes[..|passes| - 1]) + passes[|passes| - 1]
  }

  /** `trace[j]` is the state before pass j and `passes[j]` the snapshots
      that pass wrote; every pass starts with some process active and
      takes its draw from `rng` at its first snapshot's number. */
  ghost predicate SimTrace(rng: nat -> Draw, trace: seq<Sim>, passes: seq<seq<Snapshot>>) {
    && |trace| == |passes| + 1
    && (forall j :: 0 <= j < |trace| ==> Consistent(trace[j].procs, trace[j].q))
    && forall j :: 0 <= j < |passes| ==>
         !AllCompleted(trace[j].procs) && SimPass(trace[j], rng(trace[j].iteration), trace[j + 1], passes[j])
  }

  lemma SimTraceExtend(rng: nat -> Draw, trace: seq<Sim>, passes: seq<seq<Snapshot>>, next: Sim, pass: seq<Snapshot>)
    requires SimTrace(rng, trace, passes) && Consistent(next.procs, next.q)
    requires var last := trace[|passes|];
             !AllCompleted(last.procs) && SimPass(last, rng(last.iteration), next, pass)
    ensures SimTrace(rng, trace + [next], passes + [pass])
  {
    var t', p' := trace + [next], passes + [pass];
    forall j | 0 <= j < |t'| ensures Consistent(t'[j].procs, t'[j].q) {
      if j < |trace| {
        assert t'[j] == trace[j];
      }
    }
    forall j | 0 <= j < |p'|
      ensures !AllCompleted(t'[j].procs) && SimPass(t'[j], rng(t'[j].iteration), t'[j + 1], p'[j])
    {
      assert t'[j] == trace[j] && t'[j + 1] == (trace + [next])[j + 1] && p'[j] == (passes + [pass])[j];
      if j < |passes| {
        assert t'[j + 1] == trace[j + 1] && p'[j] == passes[j];
      }
    }
  }

  lemma ConcatAppend(passes: seq<seq<Snapshot>>, pass: seq<Snapshot>)
    ensures Concat(passes + [pass]) == Concat(passes) + pass
  {
    assert (passes + [pass])[..|passes|] == passes;
  }

  /** The loop has run the passes `passes` from `start` and is now at
      `s`, having written `snaps`. */
  ghost predicate SimReached(rng: nat -> Draw, start: Sim, trace: seq<Sim>, passes: seq<seq<Snapshot>>,
                             s: Sim, snaps: seq<Snapshot>)
  {
    && SimTrace(rng, trace, passes)
    && trace[0] == start && trace[|passes|] == s
    && snaps == Concat(passes)
  }

  lemma SimReachedNext(rng: nat -> Draw, start: Sim, trace: seq<Sim>, passes: seq<seq<Snapshot>>,
                       s: Sim, snaps: seq<Snapshot>, next: Sim, pass: seq<Snapshot>)
    requires SimReached(rng, start, trace, passes, s, snaps)
    requires Consistent(next.procs, next.q) && !AllCompleted(s.procs)
    requires |s.procs| <= |s.q| && SimPass(s, rng(s.iteration), next, pass)
    ensures SimReached(rng, start, trace + [next], passes + [pass], next, snaps + pass)
  {
    SimTraceExtend(rng, trace, passes, next, pass);
    ConcatAppend(passes, pass);
  }

  /** What the loop of the whole program keeps true: the state is
      consistent, the passes so far form the run from the initial state,
      and the snapshots written so far are numbered, counted and trailed
      as the run's progress says. */
  ghost predicate SimLoopInv(draws: seq<InitDraw>, rng: nat -> Draw, s: Sim, snaps: seq<Snapshot>,
                             trace: seq<Sim>, passes: seq<seq<Snapshot>>)
    requires |draws| <= MaxProcesses
  {
    var initial := InitializeProcesses(draws);
    && Consistent(s.procs, s.q) && |s.procs| == |draws|
    && SimReached(rng, Sim(initial, InitializeQTable(), 0), trace, passes, s, snaps)
    && s.iteration == |snaps|
    && Trace(snaps, AllCompleted(s.procs))
    && (|snaps| == 0 ==> s.procs == initial)
    && (|draws| == 0 ==> |snaps| == 0)
    && |snaps| == Quanta(initial) - Quanta(s.procs) + (if AllCompleted(s.procs) && |snaps| != 0 then 1 else 0)
  }

  lemma SimLoopNext(draws: seq<InitDraw>, rng: nat -> Draw, s: Sim, snaps: seq<Snapshot>,
                    trace: seq<Sim>, passes: seq<seq<Snapshot>>, next: Sim, pass: seq<Snapshot>)
    requires |draws| <= MaxProcesses && SimLoopInv(draws, rng, s, snaps, trace, passes)
    requires !AllCompleted(s.procs)
    requires Consistent(next.procs, next.q) && |next.procs| == |s.procs|
    requires Quanta(next.procs) == Quanta(s.procs) - 1
    requires 1 <= |pass| <= 2 && Numbered(pass, s.iteration) && pass[0].trailer.WillExecute?
    requires |pass| == 2 <==> AllCompleted(next.procs)
    requires |pass| == 2 ==> pass[1].trailer == AllDone
    requires SimPass(s, rng(s.iteration), next, pass)
    ensures SimLoopInv(draws, rng, next, snaps + pass, trace + [next], passes + [pass])
  {
    if |pass| == 2 {
      QuantaZero(next.procs);
    }
    TraceExtend(snaps, pass, AllCompleted(next.procs));
    SimReachedNext(rng, Sim(InitializeProcesses(draws), InitializeQTable(), 0), trace, passes, s, snaps, next, pass);
  }

  /** Two runs from the same state with the same draws, each ending at its
      first state with every process completed, are the same run: a pass
      is determined by the state it starts from and its draw. */
  lemma {:induction false} SimTraceUnique(rng: nat -> Draw, t1: seq<Sim>, p1: seq<seq<Snapshot>>,
                                          t2: seq<Sim>, p2: seq<seq<Snapshot>>)
    requires SimTrace(rng, t1, p1) && SimTrace(rng, t2, p2) && t1[0] == t2[0]
    requires AllCompleted(t1[|p1|].procs) && AllCompleted(t2[|p2|].procs)
    ensures t1 == t2 && p1 == p2
  {
    var m := if |p1| <= |p2| then |p1| else |p2|;
    SimPrefixUnique(rng, t1, p1, t2, p2, m);
  }

  lemma {:induction false} SimPrefixUnique(rng: nat -> Draw, t1: seq<Sim>, p1: seq<seq<Snapshot>>,
                                           t2: seq<Sim>, p2: seq<seq<Snapshot>>, k: nat)
    requires SimTrace(rng, t1, p1) && SimTrace(rng, t2, p2) && t1[0] == t2[0]
    requires k <= |p1| && k <= |p2|
    ensures forall j :: 0 <= j <= k ==> t1[j] == t2[j]
    ensures forall j :: 0 <= j < k ==> p1[j] == p2[j]
  {
    if k > 0 {
      SimPrefixUnique(rng, t1, p1, t2, p2, k - 1);
      var s := t1[k - 1];
      assert SimPass(s, rng(s.iteration), t1[k], p1[k - 1]);
      assert SimPass(s, rng(s.iteration), t2[k], p2[k - 1]);
    }
  }

  /** The whole program: create the processes, zero the table, then loop
      until every process is completed; `rng(n)` is what rand() returns to
      update_state in the pass whose first snapshot is numbered n. The run
      is the sequence of passes `trace` from the initial state to `final`,
      and the snapshots are those the passes wrote, in order. They are
      numbered 0, 1, 2, ...; there is one per quantum executed plus the
      final one, which is the only one announcing that all processes
      completed. At the end every row of the table is zero. */
  method Simulate(draws: seq<InitDraw>, rng: nat -> Draw)
    returns (final: Sim, snaps: seq<Snapshot>, ghost trace: seq<Sim>, ghost passes: seq<seq<Snapshot>>)
    requires |draws| <= MaxProcesses
    ensures SimTrace(rng, trace, passes)
    ensures trace[0] == Sim(InitializeProcesses(draws), InitializeQTable(), 0)
    ensures trace[|passes|] == final
    ensures snaps == Concat(passes)
    ensures |final.procs| == |draws| && AllCompleted(final.procs)
    ensures forall i :: 0 <= i < |snaps| ==> snaps[i].number == i
    ensures |snaps| == 0 <==> |draws| == 0
    ensures |draws| != 0 ==> |snaps| == Quanta(InitializeProcesses(draws)) + 1
    ensures forall i :: 0 <= i < |snaps| ==> (snaps[i].trailer == AllDone <==> i == |snaps| - 1)
    ensures forall i, k :: 0 <= i < |final.q| && 0 <= k < |final.q[i]| ==> final.q[i][k] == 0.0
  {
    var initial := InitializeProcesses(draws);
    InitialConsistent(draws);
    var s := Sim(initial, InitializeQTable(), 0);
    snaps := [];
    trace, passes := [s], [];
    while !AllCompleted(s.procs)
      invariant SimLoopInv(draws, rng, s, snaps, trace, passes)
      decreases Quanta(s.procs)
    {
      var next, pass := Iterate(s, rng(s.iteration));
      SimLoopNext(draws, rng, s, snaps, trace, passes, next, pass);
      trace, passes := trace + [next], passes + [pass];
      snaps := snaps + pass;
      s := next;
    }
    if |draws| != 0 {
      assert !initial[0].completed;
    }
    QuantaZero(s.procs);
    final := s;
    forall i, k | 0 <= i < |final.q| && 0 <= k < |final.q[i]| ensures final.q[i][k] == 0.0 {
      assert final.q[i] == ZeroRow();
    }
  }

  /** The snapshots written so far: numbered from 0, and the last one is the
      only one announcing completion, which it does once the run is over. */
  ghost predicate Trace(snaps: seq<Snapshot>, over: bool) {
    && Numbered(snaps, 0)
    && forall i :: 0 <= i < |snaps| ==> (snaps[i].trailer == AllDone <==> over && i == |snaps| - 1)
  }

  lemma TraceExtend(snaps: seq<Snapshot>, pass: seq<Snapshot>, over: bool)
    requires Trace(snaps, false)
    requires 1 <= |pass| <= 2 && Numbered(pass, |snaps|) && pass[0].trailer.WillExecute?
    requires |pass| == 2 <==> over
    requires |pass| == 2 ==> pass[1].trailer == AllDone
    ensures Trace(snaps + pass, over)
  {
  }

  /** Scenario: one process with burst 5 runs for
      three quanta (5, 3, 1, 0) and four snapshots are written, the last
      announcing completion. */
  method SingleProcessScenario(d: InitDraw, rng: nat -> Draw) returns (snaps: seq<Snapshot>)
    requires d.burst % 20 + 1 == 5
    ensures |snaps| == 4 && snaps[3].trailer == AllDone
    ensures forall i :: 0 <= i < 3 ==> snaps[i].trailer.WillExecute?
  {
    var ps := InitializeProcesses([d]);
    assert Quanta(ps) == QuantaOf(5) + Quanta(ps[1..]);
    var final;
    ghost var trace, passes;
    final, snaps, trace, passes := Simulate([d], rng);
  }
}
