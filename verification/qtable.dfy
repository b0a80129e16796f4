/** The per-process Q-table of the scheduler: initialisation, the in-place
    learning update, the zeroing of a completed process's row, and the
    arg-max selection of the next process to run. Values are real numbers;
    float rounding is not modelled. */
module QTable {
  import opened Processes

  const MaxStates: nat := 5
  const LearningRate: real := 0.2
  const DiscountFactor: real := 0.9

  /** The initial best score of select_action (-1e9): a process is chosen
      only if its row sum exceeds it. */
  const NoCandidateScore: real := -1000000000.0

  /** A lower bound on every entry of a table the scheduler can reach. */
  const EntryFloor: real := -4.0

  type Row = seq<real>
  type Table = seq<Row>

  /** The shape of the global Q_table: MAX_PROCESSES rows of MAX_STATES slots. */
  predicate ValidTable(q: Table) {
    |q| == MaxProcesses && forall i :: 0 <= i < |q| ==> |q[i]| == MaxStates
  }

  function ZeroRow(): (row: Row)
    ensures |row| == MaxStates
    ensures forall j :: 0 <= j < |row| ==> row[j] == 0.0
  {
    seq(MaxStates, _ => 0.0)
  }

  /** initialize_q_table: every slot of every row is 0. */
  function InitializeQTable(): (q: Table)
    ensures ValidTable(q)
    ensures forall i, j :: 0 <= i < |q| && 0 <= j < |q[i]| ==> q[i][j] == 0.0
  {
    seq(MaxProcesses, _ => ZeroRow())
  }

  /** The score select_action gives a row, summed left to right. */
  function RowSum(row: Row): real {
    if |row| == 0 then 0.0 else RowSum(row[..|row| - 1]) + row[|row| - 1]
  }

  lemma {:induction false} RowSumFloor(row: Row, floor: real)
    requires forall k :: 0 <= k < |row| ==> floor <= row[k]
    ensures |row| as real * floor <= RowSum(row)
  {
    if |row| > 0 {
      RowSumFloor(row[..|row| - 1], floor);
    }
  }

  lemma {:induction false} RowSumOfZeros(row: Row)
    requires forall k :: 0 <= k < |row| ==> row[k] == 0.0
    ensures RowSum(row) == 0.0
  {
    if |row| > 0 {
      RowSumOfZeros(row[..|row| - 1]);
    }
  }

  /** The running maximum `max_next_q` of update_q_table: it starts at 0 and
      is replaced by every strictly larger slot, so it is the larger of 0
      and the row's maximum. */
  function MaxNonNeg(row: Row): real {
    if |row| == 0 then 0.0
    else
      var m := MaxNonNeg(row[..|row| - 1]);
      if row[|row| - 1] > m then row[|row| - 1] else m
  }

  lemma {:induction false} MaxNonNegIsMax(row: Row)
    ensures 0.0 <= MaxNonNeg(row)
    ensures forall k :: 0 <= k < |row| ==> row[k] <= MaxNonNeg(row)
    ensures MaxNonNeg(row) == 0.0 || exists k :: 0 <= k < |row| && row[k] == MaxNonNeg(row)
  {
    if |row| > 0 {
      var init := row[..|row| - 1];
      MaxNonNegIsMax(init);
      assert forall k :: 0 <= k < |init| ==> row[k] == init[k];
    }
  }

  /** The learning rule applied to one slot. */
  function Blend(q: real, reward: real, maxNext: real): real {
    q + LearningRate * (reward + DiscountFactor * maxNext - q)
  }

  lemma BlendFloor(q: real, reward: real, maxNext: real, floor: real)
    requires floor <= 0.0 && floor <= q && floor <= reward && 0.0 <= maxNext
    ensures floor <= Blend(q, reward, maxNext)
  {
  }

  /** The row after the first j passes of the slot loop of update_q_table:
      pass j blends slot j with the maximum of the row as it stands then,
      earlier slots already holding their new values. */
  function Partial(row: Row, reward: real, j: nat): (p: Row)
    requires j <= |row|
    ensures |p| == |row|
  {
    if j == 0 then row
    else
      var p := Partial(row, reward, j - 1);
      p[j - 1 := Blend(p[j - 1], reward, MaxNonNeg(p))]
  }

  /** After j passes, slots from j on are untouched and slot k < j holds
      what pass k wrote. */
  lemma {:induction false} PartialShape(row: Row, reward: real, j: nat)
    requires j <= |row|
    ensures forall k :: j <= k < |row| ==> Partial(row, reward, j)[k] == row[k]
    ensures forall k :: 0 <= k < j ==> Partial(row, reward, j)[k] == Partial(row, reward, k + 1)[k]
  {
    if j > 0 {
      PartialShape(row, reward, j - 1);
    }
  }

  /** The inner loops of update_q_table on one row. */
  function UpdateRow(row: Row, reward: real): (r: Row)
    ensures |r| == |row|
  {
    Partial(row, reward, |row|)
  }

  /** The row pass k sees is the updated row up to k followed by the old row
      from k on. */
  lemma PartialIsMixed(row: Row, reward: real, k: nat)
    requires k <= |row|
    ensures Partial(row, reward, k) == UpdateRow(row, reward)[..k] + row[k..]
  {
    PartialShape(row, reward, k);
    PartialShape(row, reward, |row|);
  }

  lemma UpdateRowSlot(row: Row, reward: real, k: nat)
    requires k < |row|
    ensures UpdateRow(row, reward)[k]
            == Blend(row[k], reward, MaxNonNeg(UpdateRow(row, reward)[..k] + row[k..]))
  {
    PartialShape(row, reward, |row|);
    PartialShape(row, reward, k);
    PartialIsMixed(row, reward, k);
  }

  /** Each slot of an updated row is its old value blended with
      max(0, maximum of the row) taken when that slot is reached: the earlier
      slots already hold their new values, the later ones their old ones. */
  lemma UpdateRowSlots(row: Row, reward: real)
    ensures forall k :: 0 <= k < |row| ==>
              UpdateRow(row, reward)[k]
              == Blend(row[k], reward, MaxNonNeg(UpdateRow(row, reward)[..k] + row[k..]))
  {
    forall k | 0 <= k < |row|
      ensures UpdateRow(row, reward)[k]
              == Blend(row[k], reward, MaxNonNeg(UpdateRow(row, reward)[..k] + row[k..]))
    {
      UpdateRowSlot(row, reward, k);
    }
  }

  /** An updated row keeps a lower bound that the old row and the reward
      both respect. */
  lemma UpdateRowFloor(row: Row, reward: real, floor: real)
    requires floor <= 0.0 && floor <= reward
    requires forall k :: 0 <= k < |row| ==> floor <= row[k]
    ensures forall k :: 0 <= k < |row| ==> floor <= UpdateRow(row, reward)[k]
  {
    var r := UpdateRow(row, reward);
    UpdateRowSlots(row, reward);
    forall k | 0 <= k < |row| ensures floor <= r[k] {
      MaxNonNegIsMax(r[..k] + row[k..]);
      BlendFloor(row[k], reward, MaxNonNeg(r[..k] + row[k..]), floor);
    }
  }

  /** update_q_table: every row of an active process is learned from that
      process's reward; the rows of completed processes and the rows beyond
      the process count stay as they are. */
  function UpdateQTable(ps: seq<Process>, q: Table): (r: Table)
    requires |ps| <= |q|
    ensures |r| == |q|
    ensures forall i :: 0 <= i < |q| && (i >= |ps| || ps[i].completed) ==> r[i] == q[i]
    ensures forall i :: 0 <= i < |ps| && !ps[i].completed ==> r[i] == UpdateRow(q[i], Reward(ps[i]))
  {
    seq(|q|, i requires 0 <= i < |q| =>
      if i < |ps| && !ps[i].completed then UpdateRow(q[i], Reward(ps[i])) else q[i])
  }

  /** Every slot of the row of an active process is learned in place from
      that process's reward. */
  lemma UpdateQTableSlots(ps: seq<Process>, q: Table, i: nat)
    requires |ps| <= |q| && i < |ps| && !ps[i].completed
    ensures |UpdateQTable(ps, q)[i]| == |q[i]|
    ensures forall k :: 0 <= k < |q[i]| ==>
              UpdateQTable(ps, q)[i][k]
              == Blend(q[i][k], Reward(ps[i]), MaxNonNeg(UpdateQTable(ps, q)[i][..k] + q[i][k..]))
  {
    UpdateRowSlots(q[i], Reward(ps[i]));
  }

  /** remove_completed_process: the row of `id` becomes zero, the others
      stay as they are. */
  function RemoveCompletedProcess(q: Table, id: nat): (r: Table)
    requires id < |q|
    ensures |r| == |q|
    ensures |r[id]| == MaxStates && forall k :: 0 <= k < MaxStates ==> r[id][k] == 0.0
    ensures forall i :: 0 <= i < |q| && i != id ==> r[i] == q[i]
  {
    q[id := ZeroRow()]
  }

  /** What select_action returns: -1 when no active process scores above the
      initial best; otherwise an active process whose score is above it,
      maximal among active processes and strictly greater than that of every
      active process before it. */
  ghost predicate IsSelection(ps: seq<Process>, q: Table, r: int)
    requires |ps| <= |q|
  {
    if r == -1 then
      forall j :: 0 <= j < |ps| && !ps[j].completed ==> RowSum(q[j]) <= NoCandidateScore
    else
      && 0 <= r < |ps|
      && !ps[r].completed
      && NoCandidateScore < RowSum(q[r])
      && (forall j :: 0 <= j < |ps| && !ps[j].completed ==> RowSum(q[j]) <= RowSum(q[r]))
      && (forall j :: 0 <= j < r && !ps[j].completed ==> RowSum(q[j]) < RowSum(q[r]))
  }

  /** The scan of select_action from process i on, with the best process and
      score seen so far. */
  function SelectFrom(ps: seq<Process>, q: Table, i: nat, best: int, bestScore: real): (r: int)
    requires |ps| <= |q| && i <= |ps|
    requires best == -1 ==>
               && bestScore == NoCandidateScore
               && forall j :: 0 <= j < i && !ps[j].completed ==> RowSum(q[j]) <= NoCandidateScore
    requires best != -1 ==>
               && 0 <= best < i
               && !ps[best].completed
               && bestScore == RowSum(q[best])
               && NoCandidateScore < bestScore
               && (forall j :: 0 <= j < i && !ps[j].completed ==> RowSum(q[j]) <= bestScore)
               && (forall j :: 0 <= j < best && !ps[j].completed ==> RowSum(q[j]) < bestScore)
    ensures IsSelection(ps, q, r)
    decreases |ps| - i
  {
    if i == |ps| then best
    else if !ps[i].completed && RowSum(q[i]) > bestScore then
      SelectFrom(ps, q, i + 1, i, RowSum(q[i]))
    else
      SelectFrom(ps, q, i + 1, best, bestScore)
  }

  /** select_action. */
  function SelectAction(ps: seq<Process>, q: Table): (r: int)
    requires |ps| <= |q|
    ensures -1 <= r < |ps|
    ensures IsSelection(ps, q, r)
  {
    SelectFrom(ps, q, 0, -1, NoCandidateScore)
  }

  /** The selection rule admits exactly one answer. */
  lemma SelectionUnique(ps: seq<Process>, q: Table, r1: int, r2: int)
    requires |ps| <= |q|
    requires IsSelection(ps, q, r1) && IsSelection(ps, q, r2)
    ensures r1 == r2
  {
  }

  /** The selection depends only on the table and on which processes are
      completed. */
  lemma SelectionIgnoresAttributes(ps: seq<Process>, ps': seq<Process>, q: Table)
    requires |ps| == |ps'| <= |q|
    requires forall i :: 0 <= i < |ps| ==> ps[i].completed == ps'[i].completed
    ensures SelectAction(ps, q) == SelectAction(ps', q)
  {
    var r := SelectAction(ps, q);
    assert IsSelection(ps', q, r);
    SelectionUnique(ps', q, r, SelectAction(ps', q));
  }

  /** The state the simulator keeps between iterations: well-formed
      processes, a table of the global shape whose rows for completed
      processes and unused slots are zero, and every entry at least
      EntryFloor. */
  ghost predicate Consistent(ps: seq<Process>, q: Table) {
    && WellFormedSet(ps)
    && ValidTable(q)
    && (forall i :: 0 <= i < |q| && (i >= |ps| || ps[i].completed) ==> q[i] == ZeroRow())
    && (forall i, k :: 0 <= i < |q| && 0 <= k < |q[i]| ==> EntryFloor <= q[i][k])
  }

  lemma InitialConsistent(draws: seq<InitDraw>)
    requires |draws| <= MaxProcesses
    ensures Consistent(InitializeProcesses(draws), InitializeQTable())
  {
  }

  /** Learning keeps a consistent table consistent. */
  lemma UpdateConsistent(ps: seq<Process>, q: Table)
    requires Consistent(ps, q)
    ensures Consistent(ps, UpdateQTable(ps, q))
  {
    var r := UpdateQTable(ps, q);
    forall i, k | 0 <= i < |r| && 0 <= k < |r[i]| ensures EntryFloor <= r[i][k] {
      if i < |ps| && !ps[i].completed {
        UpdateRowFloor(q[i], Reward(ps[i]), EntryFloor);
      }
    }
  }

  /** In a consistent state select_action returns -1 exactly when every
      process is completed: no reachable score is as low as -1e9. */
  lemma SelectionFindsActive(ps: seq<Process>, q: Table)
    requires Consistent(ps, q)
    ensures SelectAction(ps, q) == -1 <==> AllCompleted(ps)
  {
    var r := SelectAction(ps, q);
    if !AllCompleted(ps) {
      var j :| 0 <= j < |ps| && !ps[j].completed;
      RowSumFloor(q[j], EntryFloor);
      assert NoCandidateScore < RowSum(q[j]);
    }
  }

  /** When every row scores the same, the first active process is chosen. */
  lemma SelectOnEqualScores(ps: seq<Process>, q: Table, first: nat)
    requires |ps| <= |q|
    requires first < |ps| && !ps[first].completed
    requires forall j :: 0 <= j < first ==> ps[j].completed
    requires forall j :: 0 <= j < |ps| ==> RowSum(q[j]) == RowSum(q[first])
    requires NoCandidateScore < RowSum(q[first])
    ensures SelectAction(ps, q) == first
  {
  }

  /** On an all-zero table select_action chooses the first active
      process. This is a property of the selection alone: neither program
      selects on such a table, since both call update_q_table before their
      first select_action (os_project.c:50, and lines 64-67 of
      Simulation_Integrable_code_Q_Table.c). */
  lemma SelectOnInitialTable(ps: seq<Process>, first: nat)
    requires |ps| <= MaxProcesses
    requires first < |ps| && !ps[first].completed
    requires forall j :: 0 <= j < first ==> ps[j].completed
    ensures SelectAction(ps, InitializeQTable()) == first
  {
    var q := InitializeQTable();
    forall j | 0 <= j < |ps| ensures RowSum(q[j]) == 0.0 {
      RowSumOfZeros(q[j]);
    }
    SelectOnEqualScores(ps, q, first);
  }

  /** The bookkeeping of a scheduler pass after the selection: run `sel` for one quantum, age
      the other active processes, resample `sel`, and zero its row if it
      completed. */
  function Advance(ps: seq<Process>, q: Table, sel: nat, d: Draw): (r: (seq<Process>, Table))
    requires sel < |ps| <= |q|
    ensures |r.0| == |ps|
  {
    var ps' := UpdateState(ExecuteSelected(ps, sel), sel, d);
    (ps', if ps'[sel].completed then RemoveCompletedProcess(q, sel) else q)
  }

  lemma AdvanceConsistent(ps: seq<Process>, q: Table, sel: nat, d: Draw)
    requires Consistent(ps, q) && sel < |ps| && !ps[sel].completed
    ensures Consistent(Advance(ps, q, sel, d).0, Advance(ps, q, sel, d).1)
  {
  }

  /** Each pass consumes exactly one of the quanta the table still needs. */
  lemma {:induction false} AdvanceQuanta(ps: seq<Process>, q: Table, sel: nat, d: Draw)
    requires Consistent(ps, q) && sel < |ps| && !ps[sel].completed
    ensures Quanta(Advance(ps, q, sel, d).0) == Quanta(ps) - 1
  {
    QuantaStep(ps, Advance(ps, q, sel, d).0, sel);
  }

  /** Completion is permanent. */
  lemma AdvanceKeepsCompleted(ps: seq<Process>, q: Table, sel: nat, d: Draw)
    requires Consistent(ps, q) && sel < |ps| && !ps[sel].completed
    ensures forall i :: 0 <= i < |ps| && ps[i].completed ==> Advance(ps, q, sel, d).0[i].completed
  {
  }

}
