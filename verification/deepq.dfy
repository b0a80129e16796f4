/** The environment of the deep-Q scheduler (Deep_Q_RL_based_Simulator.py):
    processes with integer attributes, the one-unit step that runs the
    chosen process, the environment's reward, and the bounded replay
    memory. The neural network, its training and the state normalisation
    are not modelled; np.random draws are explicit parameters. */
module DeepQ {
  import opened Numbers

  const NumProcesses: nat := 5

  datatype DProcess = DProcess(
    pid: int,
    priority: int,
    burst: int,
    waiting: int,
    ioBound: int,
    memory: int,
    inCpu: int)

  /** The four random draws Process.__init__ makes, in call order. */
  datatype DDraw = DDraw(priority: nat, burst: nat, io: nat, memory: nat)

  /** Process.__init__: randint(1, 11), randint(1, 21), choice([0, 1]) and
      randint(1, 101) give a priority in 1..10, a burst in 1..20, an I/O
      flag 0 or 1 and a memory use in 1..100; waiting and in_cpu start at
      0. */
  function NewProcess(pid: int, d: DDraw): (p: DProcess)
    ensures p.pid == pid && p.waiting == 0 && p.inCpu == 0
    ensures 1 <= p.priority <= 10 && 1 <= p.burst <= 20
    ensures 0 <= p.ioBound <= 1 && 1 <= p.memory <= 100
  {
    DProcess(pid, d.priority % 10 + 1, d.burst % 20 + 1, 0, d.io % 2, d.memory % 100 + 1, 0)
  }

  datatype Env = Env(procs: seq<DProcess>, time: int)

  /** CPUEnvironment.__init__ and reset: NUM_PROCESSES fresh processes with
      pids 0..4 and the clock at 0. */
  function NewEnv(draws: seq<DDraw>): (e: Env)
    requires |draws| == NumProcesses
    ensures |e.procs| == NumProcesses && e.time == 0
    ensures forall i :: 0 <= i < |e.procs| ==> e.procs[i] == NewProcess(i, draws[i])
  {
    Env(seq(NumProcesses, i requires 0 <= i < NumProcesses => NewProcess(i, draws[i])), 0)
  }

  /** CPUEnvironment.calculate_reward: a tenth of a point lost per unit of
      waiting, one point for a finished process. */
  function EnvReward(p: DProcess): real {
    -0.1 * p.waiting as real + (if p.burst == 0 then 1.0 else 0.0)
  }

  /** The reward never exceeds 1 for a process that has not waited a
      negative time, and only a finished process can earn a positive one:
      a finished process earns one point less a tenth per unit waited. */
  lemma EnvRewardBounds(p: DProcess)
    requires 0 <= p.waiting
    ensures EnvReward(p) <= 1.0
    ensures 0.0 < EnvReward(p) ==> p.burst == 0
    ensures p.burst == 0 ==> EnvReward(p) == 1.0 - 0.1 * p.waiting as real
  {
  }

  /** More waiting never earns more, and finishing is worth exactly one
      point more than not finishing after the same wait. */
  lemma EnvRewardAntitone(p: DProcess, p': DProcess)
    requires p.waiting <= p'.waiting && (p.burst == 0 <==> p'.burst == 0)
    ensures EnvReward(p') <= EnvReward(p)
    ensures p.burst != 0 ==> EnvReward(p.(burst := 0)) == EnvReward(p) + 1.0
  {
  }

  /** CPUEnvironment.step: the chosen process is put in the CPU (and never
      taken out), every process whose pid differs from it waits one more
      unit, finished ones included, the chosen one loses one unit of burst
      but not below 0, and the clock advances by 1. The episode is done
      exactly when every burst is 0; the reward is that of the chosen
      process after it ran. */
  function Step(e: Env, action: nat): (r: (Env, real, bool))
    requires action < |e.procs|
    ensures |r.0.procs| == |e.procs| && r.0.time == e.time + 1
    ensures var chosen := e.procs[action];
            forall i :: 0 <= i < |e.procs| && e.procs[i].pid != chosen.pid ==>
              r.0.procs[i] == e.procs[i].(waiting := e.procs[i].waiting + 1)
    ensures forall i :: 0 <= i < |e.procs| && i != action && e.procs[i].pid == e.procs[action].pid ==>
              r.0.procs[i] == e.procs[i]
    ensures r.0.procs[action] == e.procs[action].(burst := Max(0, e.procs[action].burst - 1), inCpu := 1)
    ensures r.1 == EnvReward(r.0.procs[action])
    ensures r.2 <==> forall i :: 0 <= i < |r.0.procs| ==> r.0.procs[i].burst == 0
  {
    var chosen := e.procs[action];
    var waited := seq(|e.procs|, i requires 0 <= i < |e.procs| =>
      if e.procs[i].pid != chosen.pid then e.procs[i].(waiting := e.procs[i].waiting + 1) else e.procs[i]);
    var ran := waited[action := chosen.(inCpu := 1, burst := Max(0, chosen.burst - 1))];
    var done := forall i :: 0 <= i < |ran| ==> ran[i].burst == 0;
    (Env(ran, e.time + 1), EnvReward(ran[action]), done)
  }

  function BurstOf(p: DProcess): int {
    p.burst
  }

  /** Total remaining burst. */
  function TotalBurst(ps: seq<DProcess>): int {
    Sum(Column(ps, BurstOf))
  }

  /** With non-negative bursts the total is non-negative, and it is 0
      exactly when the episode is done. */
  lemma TotalBurstNonNeg(ps: seq<DProcess>)
    requires forall i :: 0 <= i < |ps| ==> 0 <= ps[i].burst
    ensures 0 <= TotalBurst(ps)
    ensures TotalBurst(ps) == 0 <==> forall i :: 0 <= i < |ps| ==> ps[i].burst == 0
  {
    SumNonNeg(Column(ps, BurstOf));
  }

  /** Choosing a process with work left removes exactly one unit from the
      total burst; choosing a finished one changes nothing; so an episode
      in which only unfinished processes are chosen ends after exactly the
      initial total burst steps. */
  lemma StepBurst(e: Env, action: nat)
    requires action < |e.procs|
    requires forall i :: 0 <= i < |e.procs| ==> 0 <= e.procs[i].burst
    ensures TotalBurst(Step(e, action).0.procs)
            == TotalBurst(e.procs) - (if e.procs[action].burst > 0 then 1 else 0)
  {
    var after := Step(e, action).0.procs;
    assert Column(after, BurstOf) == Column(e.procs, BurstOf)[action := Max(0, e.procs[action].burst - 1)];
    SumUpdate(Column(e.procs, BurstOf), action, Max(0, e.procs[action].burst - 1));
  }

  // ---------------------------------------------------------------------
  // Replay memory
  // ---------------------------------------------------------------------

  /** ReplayMemory.push on `deque(maxlen=capacity)`: append, dropping the
      oldest entry when the deque is full; a deque of capacity 0 stays
      empty. The result is the newest `capacity` entries of the old contents
      followed by the new one. */
  function Push<T>(items: seq<T>, capacity: nat, x: T): (r: seq<T>)
    requires |items| <= capacity
    ensures |r| <= capacity && |r| == if |items| < capacity then |items| + 1 else capacity
    ensures r == (items + [x])[|items| + 1 - |r|..]
  {
    if |items| < capacity then items + [x]
    else if capacity == 0 then []
    else items[1..] + [x]
  }

  /** Pushing a sequence of experiences one after another. */
  function PushAll<T>(items: seq<T>, capacity: nat, xs: seq<T>): (r: seq<T>)
    requires |items| <= capacity
    ensures |r| <= capacity
    decreases |xs|
  {
    if |xs| == 0 then items else PushAll(Push(items, capacity, xs[0]), capacity, xs[1..])
  }

  /** A window at the end of a suffix followed by more entries is the same
      window of the whole. */
  lemma SuffixWindow<T>(s: seq<T>, k: nat, t: seq<T>, w: nat)
    requires k <= |s| && w <= |s| - k + |t|
    ensures (s[k..] + t)[|s| - k + |t| - w..] == (s + t)[|s| + |t| - w..]
  {
    assert s[k..] + t == (s + t)[k..];
  }

  /** The replay memory is a sliding window: after any pushes it holds
      exactly the newest min(capacity, everything pushed) experiences, in
      the order they were pushed. */
  lemma {:induction false} PushAllKeepsNewest<T>(items: seq<T>, capacity: nat, xs: seq<T>)
    requires |items| <= capacity
    ensures var all := items + xs;
            PushAll(items, capacity, xs) == all[|all| - Min(capacity, |all|)..]
    decreases |xs|
  {
    if |xs| == 0 {
      assert items + xs == items;
    } else {
      var all := items + xs;
      var a := items + [xs[0]];
      var t := xs[1..];
      assert a + t == all;
      var next := Push(items, capacity, xs[0]);
      var k := |a| - |next|;
      var w := Min(capacity, |all|);
      assert next == a[k..];
      assert Min(capacity, |next| + |t|) == w;
      PushAllKeepsNewest(next, capacity, t);
      var window := (next + t)[|next| + |t| - w..];
      assert PushAll(items, capacity, xs) == window;
      SuffixWindow(a, k, t, w);
      assert window == all[|all| - w..];
    }
  }

  /** ReplayMemory.__len__ after any pushes: everything pushed, up to the
      capacity. */
  lemma {:induction false} MemoryLength<T>(items: seq<T>, capacity: nat, xs: seq<T>)
    requires |items| <= capacity
    ensures |PushAll(items, capacity, xs)| == Min(capacity, |items| + |xs|)
  {
    PushAllKeepsNewest(items, capacity, xs);
  }
}
