/** The process records of the Q-table scheduler: how they are drawn at
    start-up, how one quantum of execution changes them, how their dynamic
    attributes are resampled, and the reward the scheduler learns from.
    Calls to rand() are replaced by explicit draws: each `nat` below is the
    value one call to rand() returned. */
module Processes {
  import opened Numbers

  const MaxProcesses: nat := 10
  const TimeQuantum: nat := 2
  const MaxBurst: nat := 20

  datatype Process = Process(
    id: int,
    burst: int,
    waiting: int,
    priority: int,
    cpu: real,
    memory: real,
    completed: bool)

  /** The four rand() values one process consumes at start-up, in call order. */
  datatype InitDraw = InitDraw(burst: nat, priority: nat, cpu: nat, memory: nat)

  /** The three rand() values one call of update_state consumes. */
  datatype Draw = Draw(priority: nat, cpu: nat, memory: nat)

  /** `rand() % 10 + 1` */
  function PriorityOf(r: nat): (p: int)
    ensures 1 <= p <= 10
  {
    r % 10 + 1
  }

  /** `(float)(rand() % 100) / 100.0` */
  function FractionOf(r: nat): (x: real)
    ensures 0.0 <= x < 1.0
  {
    (r % 100) as real / 100.0
  }

  /** The attribute ranges every process keeps for its whole life; a process
      is completed exactly when its remaining burst is 0. */
  predicate WellFormed(p: Process) {
    && 0 <= p.burst <= MaxBurst
    && 0 <= p.waiting
    && 1 <= p.priority <= 10
    && 0.0 <= p.cpu < 1.0
    && 0.0 <= p.memory < 1.0
    && (p.completed <==> p.burst == 0)
  }

  /** A process table as the simulator keeps it: at most MAX_PROCESSES
      entries, entry i has id i, all well formed. */
  predicate WellFormedSet(ps: seq<Process>) {
    && |ps| <= MaxProcesses
    && forall i :: 0 <= i < |ps| ==> ps[i].id == i && WellFormed(ps[i])
  }

  predicate AllCompleted(ps: seq<Process>) {
    forall i :: 0 <= i < |ps| ==> ps[i].completed
  }

  function InitialProcess(i: nat, d: InitDraw): (p: Process)
    ensures p.id == i && p.waiting == 0 && !p.completed
    ensures 1 <= p.burst <= MaxBurst && 1 <= p.priority <= 10
    ensures WellFormed(p)
  {
    Process(i, d.burst % 20 + 1, 0, PriorityOf(d.priority),
            FractionOf(d.cpu), FractionOf(d.memory), false)
  }

  /** initialize_processes: one process per draw, numbered from 0. The
      number of processes read from the user is not checked against
      MAX_PROCESSES; here it is a precondition. */
  function InitializeProcesses(draws: seq<InitDraw>): (ps: seq<Process>)
    requires |draws| <= MaxProcesses
    ensures |ps| == |draws|
    ensures WellFormedSet(ps)
    ensures forall i :: 0 <= i < |ps| ==>
              !ps[i].completed && ps[i].waiting == 0 && 1 <= ps[i].burst
  {
    seq(|draws|, i requires 0 <= i < |draws| => InitialProcess(i, draws[i]))
  }

  /** The selected process after running for one quantum. */
  function RunQuantum(p: Process): (r: Process)
    ensures r.burst == Max(0, p.burst - TimeQuantum)
    ensures r.completed <==> p.completed || p.burst <= TimeQuantum
    ensures r == p.(burst := r.burst, completed := r.completed)
  {
    var b := p.burst - TimeQuantum;
    if b <= 0 then p.(burst := 0, completed := true) else p.(burst := b)
  }

  /** One quantum of execution of process `sel`, followed by the waiting-time
      update of every other process that is still active. */
  function ExecuteSelected(ps: seq<Process>, sel: nat): (r: seq<Process>)
    requires sel < |ps|
    ensures |r| == |ps|
    ensures r[sel].burst == Max(0, ps[sel].burst - TimeQuantum)
    ensures r[sel].completed <==> ps[sel].completed || r[sel].burst == 0
    ensures r[sel] == ps[sel].(burst := r[sel].burst, completed := r[sel].completed)
    ensures forall i :: 0 <= i < |ps| && i != sel && !ps[i].completed ==>
              r[i] == ps[i].(waiting := ps[i].waiting + TimeQuantum)
    ensures forall i :: 0 <= i < |ps| && i != sel && ps[i].completed ==> r[i] == ps[i]
  {
    var run := ps[sel := RunQuantum(ps[sel])];
    seq(|run|, i requires 0 <= i < |run| =>
      if i != sel && !run[i].completed
      then run[i].(waiting := run[i].waiting + TimeQuantum)
      else run[i])
  }

  /** update_state: resample the priority, CPU utilisation and memory usage
      of one process; nothing else changes. */
  function UpdateState(ps: seq<Process>, id: nat, d: Draw): (r: seq<Process>)
    requires id < |ps|
    ensures |r| == |ps|
    ensures forall i :: 0 <= i < |ps| && i != id ==> r[i] == ps[i]
    ensures r[id] == ps[id].(priority := r[id].priority, cpu := r[id].cpu, memory := r[id].memory)
    ensures 1 <= r[id].priority <= 10
    ensures 0.0 <= r[id].cpu < 1.0 && 0.0 <= r[id].memory < 1.0
  {
    ps[id := ps[id].(priority := PriorityOf(d.priority),
                     cpu := FractionOf(d.cpu),
                     memory := FractionOf(d.memory))]
  }

  /** The smallest reward a well-formed process can earn:
      0.35 * 1 - 0.2 * 20 + 0.2 * 0 - 0.15 * 1 + 0.05 * 0. */
  const RewardFloor: real := -3.8

  /** calculate_reward: a weighted sum favouring high priority, short
      remaining burst, long waiting, low CPU use and high memory use. */
  function Reward(p: Process): (r: real)
    ensures WellFormed(p) ==> RewardFloor <= r
  {
    0.35 * p.priority as real
    + 0.2 * -(p.burst as real)
    + 0.2 * p.waiting as real
    + 0.15 * -p.cpu
    + 0.05 * p.memory
  }

  /** The reward is linear in the five attributes with weights
      0.35, -0.2, 0.2, -0.15 and 0.05, and ignores everything else. */
  lemma RewardLinear(p: Process, p': Process)
    ensures Reward(p') - Reward(p)
            == 0.35 * (p'.priority - p.priority) as real
             - 0.2 * (p'.burst - p.burst) as real
             + 0.2 * (p'.waiting - p.waiting) as real
             - 0.15 * (p'.cpu - p.cpu)
             + 0.05 * (p'.memory - p.memory)
  {
  }

  /** Quanta a burst still needs: ceil(burst / TIME_QUANTUM). */
  function QuantaOf(b: int): nat {
    if b <= 0 then 0 else (b + TimeQuantum - 1) / TimeQuantum
  }

  /** Total number of quanta the table still needs. */
  function Quanta(ps: seq<Process>): nat {
    if |ps| == 0 then 0 else QuantaOf(ps[0].burst) + Quanta(ps[1..])
  }

  lemma {:induction false} QuantaSameBursts(a: seq<Process>, b: seq<Process>)
    requires |a| == |b|
    requires forall i :: 0 <= i < |a| ==> a[i].burst == b[i].burst
    ensures Quanta(a) == Quanta(b)
  {
    if |a| > 0 {
      QuantaSameBursts(a[1..], b[1..]);
    }
  }

  /** Running a process with burst left for one quantum removes exactly one
      quantum from the total the table needs. */
  lemma {:induction false} QuantaStep(a: seq<Process>, b: seq<Process>, k: nat)
    requires |a| == |b| && k < |a|
    requires forall i :: 0 <= i < |a| && i != k ==> a[i].burst == b[i].burst
    requires 0 < a[k].burst && b[k].burst == Max(0, a[k].burst - TimeQuantum)
    ensures Quanta(b) == Quanta(a) - 1
  {
    if k == 0 {
      QuantaSameBursts(a[1..], b[1..]);
    } else {
      QuantaStep(a[1..], b[1..], k - 1);
    }
  }

  /** A table in which every process is completed needs no quanta; one with
      an active process needs at least one. */
  lemma {:induction false} QuantaZero(ps: seq<Process>)
    requires forall i :: 0 <= i < |ps| ==> WellFormed(ps[i])
    ensures Quanta(ps) == 0 <==> AllCompleted(ps)
  {
    if |ps| > 0 {
      QuantaZero(ps[1..]);
      assert AllCompleted(ps) <==> ps[0].completed && AllCompleted(ps[1..]) by {
        if ps[0].completed && AllCompleted(ps[1..]) {
          forall i | 0 <= i < |ps| ensures ps[i].completed {
            if i > 0 { assert ps[i] == ps[1..][i - 1]; }
          }
        }
      }
    }
  }

  function BurstOf(p: Process): int {
    p.burst
  }

  /** Total remaining burst of the table. */
  function TotalBurst(ps: seq<Process>): int {
    Sum(Column(ps, BurstOf))
  }

  /** Executing a process for one quantum and resampling it removes exactly
      min(TIME_QUANTUM, its burst) from the total remaining burst. */
  lemma ExecuteBurst(ps: seq<Process>, sel: nat, d: Draw)
    requires sel < |ps| && 0 <= ps[sel].burst
    ensures TotalBurst(UpdateState(ExecuteSelected(ps, sel), sel, d))
            == TotalBurst(ps) - Min(TimeQuantum, ps[sel].burst)
  {
    var r := UpdateState(ExecuteSelected(ps, sel), sel, d);
    assert Column(r, BurstOf) == Column(ps, BurstOf)[sel := Max(0, ps[sel].burst - TimeQuantum)];
    SumUpdate(Column(ps, BurstOf), sel, Max(0, ps[sel].burst - TimeQuantum));
  }
}
