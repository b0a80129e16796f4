/** The classroom variant of the scheduler (os_project.c): the same process
    model and helpers, but the Q-table is learned once, before the loop, and
    afterwards only changes by zeroing the row of a process that completed.
    No snapshots are written. */
module Classroom {
  import opened Numbers
  import opened Processes
  import opened QTable

  /** With the table fixed, the process just run stays the selection until
      it completes: its row and every completion flag are unchanged. */
  lemma ClassroomKeepsSelection(ps: seq<Process>, q: Table, d: Draw)
    requires Consistent(ps, q) && !AllCompleted(ps)
    ensures var sel := SelectAction(ps, q);
            sel != -1
            && (!Advance(ps, q, sel, d).0[sel].completed ==>
                  SelectAction(Advance(ps, q, sel, d).0, Advance(ps, q, sel, d).1) == sel)
  {
    SelectionFindsActive(ps, q);
    var sel := SelectAction(ps, q);
    var a := Advance(ps, q, sel, d);
    if !a.0[sel].completed {
      SelectionIgnoresAttributes(ps, a.0, q);
    }
  }

  /** One pass of the classroom loop from `(ps, q)` with update_state's
      draw `d`: select on the table as it stands and advance on it. */
  ghost predicate ClassroomPass(ps: seq<Process>, q: Table, d: Draw, ps': seq<Process>, q': Table)
    requires |ps| <= |q|
  {
    var sel := SelectAction(ps, q);
    0 <= sel && (ps', q') == Advance(ps, q, sel, d)
  }

  /** One pass of the classroom loop: select on the table as it stands, run
      the selection for one quantum, age the other active processes,
      resample the selection and zero its row if it completed. */
  method ClassroomStep(ps: seq<Process>, q: Table, d: Draw) returns (sel: int, ps': seq<Process>, q': Table)
    requires Consistent(ps, q) && !AllCompleted(ps)
    ensures Consistent(ps', q') && |ps'| == |ps|
    ensures IsSelection(ps, q, sel) && 0 <= sel < |ps|
    ensures ps'[sel].burst == Max(0, ps[sel].burst - TimeQuantum)
    ensures ps'[sel].completed <==> ps'[sel].burst == 0
    ensures forall i :: 0 <= i < |ps| && i != sel && !ps[i].completed ==>
              ps'[i] == ps[i].(waiting := ps[i].waiting + TimeQuantum)
    ensures forall i :: 0 <= i < |ps| && i != sel && ps[i].completed ==> ps'[i] == ps[i]
    ensures ps'[sel] == ps[sel].(burst := ps'[sel].burst, completed := ps'[sel].completed,
                                 priority := PriorityOf(d.priority),
                                 cpu := FractionOf(d.cpu), memory := FractionOf(d.memory))
    ensures Quanta(ps') == Quanta(ps) - 1
    ensures |q'| == |q| && forall i :: 0 <= i < |q| && i != sel ==> q'[i] == q[i]
    ensures q'[sel] == if ps'[sel].completed then ZeroRow() else q[sel]
    ensures (ps', q') == Advance(ps, q, sel, d)
    ensures ClassroomPass(ps, q, d, ps', q')
  {
    SelectionFindsActive(ps, q);
    sel := SelectAction(ps, q);
    AdvanceConsistent(ps, q, sel, d);
    AdvanceQuanta(ps, q, sel, d);
    var a := Advance(ps, q, sel, d);
    ps', q' := a.0, a.1;
  }

  /** The classroom program: create the processes, zero the table, learn
      once, then run passes until every process is completed; `rng(k)` is
      what rand() returns to update_state in pass k. `trace[k]` is the
      state before pass k: the run starts from the fresh processes and the
      table learned from them, every pass is one `ClassroomPass` and no
      pass learns again, so every row of every table in the run is the
      learned row or zero. The loop makes one pass per quantum of work,
      and the table ends all zero. */
  method ClassroomRun(draws: seq<InitDraw>, rng: nat -> Draw)
    returns (ps: seq<Process>, q: Table, passes: nat, ghost trace: seq<(seq<Process>, Table)>)
    requires |draws| <= MaxProcesses
    ensures ClassroomReached(draws, rng, UpdateQTable(InitializeProcesses(draws), InitializeQTable()),
                             trace, ps, q, passes)
    ensures |ps| == |draws| && AllCompleted(ps) && ValidTable(q)
    ensures passes == Quanta(InitializeProcesses(draws))
    ensures forall i, k :: 0 <= i < |q| && 0 <= k < |q[i]| ==> q[i][k] == 0.0
  {
    ps := InitializeProcesses(draws);
    InitialConsistent(draws);
    UpdateConsistent(ps, InitializeQTable());
    var learned := UpdateQTable(ps, InitializeQTable());
    q := learned;
    passes := 0;
    trace := [(ps, q)];
    while !AllCompleted(ps)
      invariant Consistent(ps, q) && |ps| == |draws|
      invariant ClassroomReached(draws, rng, learned, trace, ps, q, passes)
      invariant passes + Quanta(ps) == Quanta(InitializeProcesses(draws))
      decreases Quanta(ps)
    {
      var sel, ps', q' := ClassroomStep(ps, q, rng(passes));
      ClassroomReachedNext(draws, rng, learned, trace, ps, q, passes, ps', q');
      trace := trace + [(ps', q')];
      ps, q := ps', q';
      passes := passes + 1;
    }
    QuantaZero(ps);
    forall i, k | 0 <= i < |q| && 0 <= k < |q[i]| ensures q[i][k] == 0.0 {
      assert q[i] == ZeroRow();
    }
  }

  /** The loop has made `passes` passes and is now at `(ps, q)`: `trace`
      starts from the fresh processes and `learned`, the table learned
      from them; each pass starts with some process active and is one
      `ClassroomPass` with `rng` of its number; and every row of every
      table along the way is the learned row or zero. */
  ghost predicate ClassroomReached(draws: seq<InitDraw>, rng: nat -> Draw, learned: Table,
                                   trace: seq<(seq<Process>, Table)>, ps: seq<Process>, q: Table, passes: nat)
    requires |draws| <= MaxProcesses
  {
    && |trace| == passes + 1
    && trace[0] == (InitializeProcesses(draws), learned)
    && learned == UpdateQTable(InitializeProcesses(draws), InitializeQTable())
    && trace[passes] == (ps, q)
    && (forall k :: 0 <= k <= passes ==> Consistent(trace[k].0, trace[k].1))
    && (forall k :: 0 <= k < passes ==>
          !AllCompleted(trace[k].0) && ClassroomPass(trace[k].0, trace[k].1, rng(k), trace[k + 1].0, trace[k + 1].1))
    && (forall k, i :: 0 <= k <= passes && 0 <= i < |trace[k].1| ==>
          trace[k].1[i] == learned[i] || trace[k].1[i] == ZeroRow())
  }

  lemma ClassroomReachedNext(draws: seq<InitDraw>, rng: nat -> Draw, learned: Table,
                             trace: seq<(seq<Process>, Table)>, ps: seq<Process>, q: Table, passes: nat,
                             ps': seq<Process>, q': Table)
    requires |draws| <= MaxProcesses && ClassroomReached(draws, rng, learned, trace, ps, q, passes)
    requires !AllCompleted(ps) && Consistent(ps', q')
    requires |q'| == |q| && forall i :: 0 <= i < |q| ==> q'[i] == q[i] || q'[i] == ZeroRow()
    requires ClassroomPass(ps, q, rng(passes), ps', q')
    ensures ClassroomReached(draws, rng, learned, trace + [(ps', q')], ps', q', passes + 1)
  {
    var t' := trace + [(ps', q')];
    forall k | 0 <= k <= passes + 1 ensures Consistent(t'[k].0, t'[k].1) {
      if k <= passes {
        assert t'[k] == trace[k];
      }
    }
    forall k | 0 <= k < passes + 1
      ensures !AllCompleted(t'[k].0) && ClassroomPass(t'[k].0, t'[k].1, rng(k), t'[k + 1].0, t'[k + 1].1)
    {
      assert t'[k] == trace[k];
      if k < passes {
        assert t'[k + 1] == trace[k + 1];
      }
    }
    forall k, i | 0 <= k <= passes + 1 && 0 <= i < |t'[k].1|
      ensures t'[k].1[i] == learned[i] || t'[k].1[i] == ZeroRow()
    {
      if k <= passes {
        assert t'[k] == trace[k];
      }
    }
  }
}
