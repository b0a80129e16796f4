/** The first Q-learning scheduler (Q_Table_based_RL_approach_v0.c): a
    table indexed by an abstract state and an action (a slot of the ready
    queue), epsilon-greedy choice, the one-cell Q-learning update, and ten
    training episodes that each schedule one queue slot, refresh the
    priorities of the waiting entries from the table and shift the
    scheduled entry out of the queue. Values are real numbers; rand() is
    replaced by explicit draws. */
module EarlyQ {

  const NumProcesses: nat := 5
  const NumStates: nat := 6
  const NumActions: nat := NumProcesses
  const Alpha: real := 0.1
  const Gamma: real := 0.9
  const Epsilon: real := 0.2
  const Episodes: nat := 10

  /** The small bonus a scheduled process's pid column receives in the next
      state. */
  const ReturnBonus: real := 0.1

  datatype EProcess = EProcess(
    pid: int,
    burst: real,
    waiting: int,
    ioBound: bool,
    system: bool,
    priority: real,
    inCpu: bool)

  type QRow = seq<real>
  type QTable = seq<QRow>

  /** The shape of q_table: NUM_STATES rows of NUM_ACTIONS slots. */
  predicate ValidQ(q: QTable) {
    |q| == NumStates && forall s :: 0 <= s < |q| ==> |q[s]| == NumActions
  }

  /** The four rand() values one process consumes at start-up. */
  datatype EDraw = EDraw(burst: nat, waiting: nat, io: nat, system: nat)

  /** initialize_processes: NUM_PROCESSES processes numbered from 0, with a
      burst estimate in 1..10, a waiting time in 0..9, priority 0 and not in
      the CPU. */
  function InitialQueue(draws: seq<EDraw>): (queue: seq<EProcess>)
    requires |draws| == NumProcesses
    ensures |queue| == NumProcesses
    ensures forall i :: 0 <= i < |queue| ==>
              && queue[i].pid == i
              && 1.0 <= queue[i].burst <= 10.0
              && 0 <= queue[i].waiting <= 9
              && queue[i].priority == 0.0
              && !queue[i].inCpu
  {
    seq(NumProcesses, i requires 0 <= i < NumProcesses =>
      EProcess(i, (draws[i].burst % 10 + 1) as real, draws[i].waiting % 10,
               draws[i].io % 2 == 1, draws[i].system % 2 == 1, 0.0, false))
  }

  /** The global q_table before training: all zero. */
  function ZeroQ(): (q: QTable)
    ensures ValidQ(q)
    ensures forall s, a :: 0 <= s < |q| && 0 <= a < |q[s]| ==> q[s][a] == 0.0
  {
    seq(NumStates, _ => seq(NumActions, _ => 0.0))
  }

  /** Slot r holds the largest value of the row, and every slot before it a
      strictly smaller one: the lowest index of a maximum. */
  ghost predicate IsArgMax(row: QRow, r: int) {
    && 0 <= r < |row|
    && (forall k :: 0 <= k < |row| ==> row[k] <= row[r])
    && (forall k :: 0 <= k < r ==> row[k] < row[r])
  }

  /** The exploitation scan of choose_action from slot a on, with the best
      slot so far. */
  function BestFrom(row: QRow, a: nat, best: nat): (r: nat)
    requires best < a <= |row|
    requires forall k :: 0 <= k < a ==> row[k] <= row[best]
    requires forall k :: 0 <= k < best ==> row[k] < row[best]
    ensures IsArgMax(row, r)
    decreases |row| - a
  {
    if a == |row| then best
    else if row[a] > row[best] then BestFrom(row, a + 1, a)
    else BestFrom(row, a + 1, best)
  }

  function BestAction(row: QRow): (r: nat)
    requires 0 < |row|
    ensures IsArgMax(row, r)
  {
    BestFrom(row, 1, 0)
  }

  /** The lowest-index maximum is unique. */
  lemma ArgMaxUnique(row: QRow, r1: int, r2: int)
    requires IsArgMax(row, r1) && IsArgMax(row, r2)
    ensures r1 == r2
  {
    assert row[r1] <= row[r2] && row[r2] <= row[r1];
  }

  /** choose_action: `coin` is `(float)rand() / RAND_MAX` and `pick` the
      second rand() of the exploration branch. Below EPSILON the action is
      `pick % NUM_ACTIONS`; otherwise it is the lowest index of a maximum of
      the state's row. Either way it is a valid action. */
  function ChooseAction(q: QTable, state: nat, coin: real, pick: nat): (a: nat)
    requires ValidQ(q) && state < NumStates
    ensures a < NumActions
    ensures coin < Epsilon ==> a == pick % NumActions
    ensures Epsilon <= coin ==> IsArgMax(q[state], a)
  {
    if coin < Epsilon then pick % NumActions else BestAction(q[state])
  }

  /** The max_q_next scan of update_q_table from slot a on: it starts at
      slot 0 and takes every strictly larger value. */
  function MaxFrom(row: QRow, a: nat, m: real): (r: real)
    requires 0 < a <= |row|
    requires exists k :: 0 <= k < a && row[k] == m
    requires forall k :: 0 <= k < a ==> row[k] <= m
    ensures exists k :: 0 <= k < |row| && row[k] == r
    ensures forall k :: 0 <= k < |row| ==> row[k] <= r
    decreases |row| - a
  {
    if a == |row| then m
    else if row[a] > m then MaxFrom(row, a + 1, row[a])
    else MaxFrom(row, a + 1, m)
  }

  /** The largest value of a non-empty row (no floor at 0 here). */
  function RowMax(row: QRow): (m: real)
    requires 0 < |row|
    ensures exists k :: 0 <= k < |row| && row[k] == m
    ensures forall k :: 0 <= k < |row| ==> row[k] <= m
  {
    MaxFrom(row, 1, row[0])
  }

  /** calculate_reward: shorter waiting and shorter bursts earn more. */
  function Reward(p: EProcess): real {
    (10.0 - p.waiting as real) + (10.0 - p.burst)
  }

  /** The reward never increases when waiting or burst grows: every unit
      of either costs exactly one point. */
  lemma RewardAntitone(p: EProcess, p': EProcess)
    requires p.waiting <= p'.waiting && p.burst <= p'.burst
    ensures Reward(p') <= Reward(p)
    ensures Reward(p) - Reward(p') == (p'.waiting - p.waiting) as real + (p'.burst - p.burst)
  {
  }

  /** update_q_table: only the cell [state][action] changes; it moves a
      tenth of the way towards reward + 0.9 * (largest value of the next
      state's row, read before the write). */
  function UpdateQ(q: QTable, state: nat, action: nat, next: nat, reward: real): (r: QTable)
    requires ValidQ(q) && state < NumStates && next < NumStates && action < NumActions
    ensures ValidQ(r)
    ensures forall s, a :: 0 <= s < |q| && 0 <= a < |q[s]| && (s != state || a != action) ==>
              r[s][a] == q[s][a]
    ensures exists k :: 0 <= k < NumActions
              && (forall j :: 0 <= j < NumActions ==> q[next][j] <= q[next][k])
              && r[state][action] == q[state][action] + Alpha * (reward + Gamma * q[next][k] - q[state][action])
  {
    var m := RowMax(q[next]);
    q[state := q[state][action := q[state][action] + Alpha * (reward + Gamma * m - q[state][action])]]
  }

  /** The transition rule of q_learning_scheduler. */
  function NextState(action: nat): (s: nat)
    ensures s < NumStates
    ensures action < NumStates ==> s == action
  {
    action % NumStates
  }

  /** The priority refresh of one episode: every entry among the first
      `size` that is not in the CPU takes the value of its pid's column in
      the current state's row; nothing else changes. */
  function RefreshPriorities(queue: seq<EProcess>, size: int, row: QRow): (r: seq<EProcess>)
    requires size <= |queue|
    requires forall i :: 0 <= i < size ==> 0 <= queue[i].pid < |row|
    ensures |r| == |queue|
    ensures forall i :: 0 <= i < |queue| && i < size && !queue[i].inCpu ==>
              r[i] == queue[i].(priority := row[queue[i].pid])
    ensures forall i :: 0 <= i < |queue| && (size <= i || queue[i].inCpu) ==> r[i] == queue[i]
  {
    seq(|queue|, i requires 0 <= i < |queue| =>
      if i < size && !queue[i].inCpu then queue[i].(priority := row[queue[i].pid]) else queue[i])
  }

  /** Every entry names a valid action as pid and none is in the CPU. */
  predicate Idle(queue: seq<EProcess>) {
    forall i :: 0 <= i < |queue| ==> 0 <= queue[i].pid < NumActions && !queue[i].inCpu
  }

  /** The removal loop of q_learning_scheduler: entries after `action` move
      one slot left, keeping their order, and the size drops by one. The
      array keeps its length, so the slot at the old end keeps its old
      value; when `action` is not below the size nothing moves. */
  method ShiftOut(queue: seq<EProcess>, size: int, action: nat) returns (r: seq<EProcess>, size': int)
    requires size <= |queue|
    ensures |r| == |queue| && size' == size - 1
    ensures action < size ==>
              && r[..size - 1] == queue[..action] + queue[action + 1..size]
              && r[size - 1..] == queue[size - 1..]
    ensures size <= action + 1 ==> r == queue
    ensures forall k :: 0 <= k < |r| ==> r[k] == queue[k] || (k + 1 < |queue| && r[k] == queue[k + 1])
    ensures Idle(queue) ==> Idle(r)
  {
    r, size' := queue, size - 1;
    var i := action;
    while i < size - 1
      invariant |r| == |queue|
      invariant action <= i && (i == action || i <= size - 1)
      invariant action < size ==> i <= size - 1
      invariant size <= action + 1 ==> r == queue
      invariant forall k :: 0 <= k < |r| && (k < action || i <= k) ==> r[k] == queue[k]
      invariant forall k :: action <= k < i ==> r[k] == queue[k + 1]
    {
      r := r[i := r[i + 1]];
      i := i + 1;
    }
    if action < size {
      assert r[..size - 1] == queue[..action] + queue[action + 1..size];
    }
  }

  /** The state of the training loop between episodes. */
  datatype Training = Training(q: QTable, queue: seq<EProcess>, size: int, state: nat)

  predicate ValidTraining(t: Training) {
    && ValidQ(t.q)
    && t.state < NumStates
    && |t.queue| == NumProcesses
    && t.size <= NumProcesses
    && Idle(t.queue)
  }

  /** The queue side of an episode before the removal: the scheduled slot
      is marked in the CPU, every other entry among the first `size` takes
      its pid's column of the current state's row as priority, and the
      scheduled slot is taken out of the CPU again with its old priority. */
  function Dispatch(queue: seq<EProcess>, size: int, action: nat, row: QRow): (r: seq<EProcess>)
    requires action < |queue| && size <= |queue|
    requires |row| == NumActions && Idle(queue)
    ensures |r| == |queue| && Idle(r)
    ensures r[action] == queue[action]
    ensures forall i :: 0 <= i < |queue| ==> r[i].pid == queue[i].pid && !r[i].inCpu
    ensures forall i :: 0 <= i < |queue| && i != action && i < size ==>
              r[i] == queue[i].(priority := row[queue[i].pid])
    ensures forall i :: 0 <= i < |queue| && i != action && size <= i ==> r[i] == queue[i]
  {
    var marked := queue[action := queue[action].(inCpu := true)];
    var refreshed := RefreshPriorities(marked, size, row);
    refreshed[action := refreshed[action].(inCpu := false)]
  }

  /** The bonus a scheduled process's pid column receives in the next
      state; no other cell changes. */
  function AddBonus(q: QTable, state: nat, column: nat): (r: QTable)
    requires ValidQ(q) && state < NumStates && column < NumActions
    ensures ValidQ(r)
    ensures r[state][column] == q[state][column] + ReturnBonus
    ensures forall s, a :: 0 <= s < |q| && 0 <= a < |q[s]| && (s != state || a != column) ==>
              r[s][a] == q[s][a]
  {
    q[state := q[state][column := q[state][column] + ReturnBonus]]
  }

  /** The table side of an episode: the learning update of the chosen
      cell, then the bonus for the scheduled pid in the next state; no other
      cell changes. */
  function Learn(q: QTable, state: nat, action: nat, next: nat, reward: real, pid: nat): (r: QTable)
    requires ValidQ(q) && state < NumStates && next < NumStates && action < NumActions && pid < NumActions
    ensures ValidQ(r)
    ensures forall s, a :: 0 <= s < NumStates && 0 <= a < NumActions ==>
              ((s != state || a != action) && (s != next || a != pid) ==> r[s][a] == q[s][a])
    ensures var learned := q[state][action] + Alpha * (reward + Gamma * RowMax(q[next]) - q[state][action]);
            && (state != next || action != pid ==>
                  r[state][action] == learned && r[next][pid] == q[next][pid] + ReturnBonus)
            && (state == next && action == pid ==> r[state][action] == learned + ReturnBonus)
  {
    AddBonus(UpdateQ(q, state, action, next, reward), next, pid)
  }

  /** What one episode of q_learning_scheduler does, given its two draws:
      the slot `action` is chosen by the epsilon-greedy rule, the state
      moves to `action % NUM_STATES`, the size shrinks by one, the table
      is updated by `Learn` from the chosen slot's reward and pid, and
      the queue is the dispatched queue with the slot shifted out when it
      lies below the size. */
  ghost predicate EpisodeStep(t: Training, coin: real, pick: nat, action: nat, t': Training)
    requires ValidTraining(t)
  {
    && ValidTraining(t')
    && action < NumActions && t'.state == NextState(action)
    && (coin < Epsilon ==> action == pick % NumActions)
    && (Epsilon <= coin ==> IsArgMax(t.q[t.state], action))
    && t'.size == t.size - 1
    && t'.q == Learn(t.q, t.state, action, t'.state, Reward(t.queue[action]), t.queue[action].pid)
    && var dispatched := Dispatch(t.queue, t.size, action, t.q[t.state]);
       && (action < t.size ==>
             && t'.queue[..t.size - 1] == dispatched[..action] + dispatched[action + 1..t.size]
             && t'.queue[t.size - 1..] == dispatched[t.size - 1..])
       && (t.size <= action + 1 ==> t'.queue == dispatched)
  }

  /** One episode: choose a slot, mark it in the CPU, compute its reward,
      refresh the other priorities, learn from the transition to
      `action % NUM_STATES`, take it out of the CPU, add the bonus to its
      pid's column in the next state, and shift it out of the queue. The
      learning update uses the slot index while the bonus uses the pid,
      and the slot is read even when the queue has shrunk below it. Only
      the chosen cell and the bonus cell of the table change. */
  method Episode(t: Training, coin: real, pick: nat) returns (t': Training, action: nat)
    requires ValidTraining(t)
    ensures EpisodeStep(t, coin, pick, action, t')
    ensures forall s, a :: 0 <= s < NumStates && 0 <= a < NumActions ==>
              ((s != t.state || a != action) && (s != t'.state || a != t.queue[action].pid)
               ==> t'.q[s][a] == t.q[s][a])
  {
    action := ChooseAction(t.q, t.state, coin, pick);
    var reward := Reward(t.queue[action].(inCpu := true));
    var queue := Dispatch(t.queue, t.size, action, t.q[t.state]);
    var next := NextState(action);
    var q := Learn(t.q, t.state, action, next, reward, t.queue[action].pid);
    var size;
    queue, size := ShiftOut(queue, t.size, action);
    t' := Training(q, queue, size, next);
  }

  /** q_learning_scheduler: ten episodes from state 0 on a freshly
      initialised queue of all NUM_PROCESSES processes; `coins[e]` and
      `picks[e]` are the draws of episode e. `trace[e]` is the training
      state before episode e and `actions[e]` the slot it chose; every
      episode is one `EpisodeStep`. The size is decremented in every
      episode, so it ends at 5 - 10 = -5. */
  method Train(draws: seq<EDraw>, coins: seq<real>, picks: seq<nat>)
    returns (t: Training, ghost trace: seq<Training>, ghost actions: seq<nat>)
    requires |draws| == NumProcesses && |coins| == Episodes && |picks| == Episodes
    ensures |trace| == Episodes + 1 && |actions| == Episodes
    ensures trace[0] == Training(ZeroQ(), InitialQueue(draws), NumProcesses, 0)
    ensures trace[Episodes] == t
    ensures forall e :: 0 <= e <= Episodes ==> ValidTraining(trace[e])
    ensures forall e :: 0 <= e < Episodes ==>
              EpisodeStep(trace[e], coins[e], picks[e], actions[e], trace[e + 1])
    ensures t.size == NumProcesses - Episodes
  {
    t := Training(ZeroQ(), InitialQueue(draws), NumProcesses, 0);
    trace, actions := [t], [];
    var e := 0;
    while e < Episodes
      invariant 0 <= e <= Episodes
      invariant |trace| == e + 1 && |actions| == e && trace[e] == t
      invariant trace[0] == Training(ZeroQ(), InitialQueue(draws), NumProcesses, 0)
      invariant forall k :: 0 <= k <= e ==> ValidTraining(trace[k])
      invariant forall k :: 0 <= k < e ==>
                  EpisodeStep(trace[k], coins[k], picks[k], actions[k], trace[k + 1])
      invariant t.size == NumProcesses - e
    {
      var action;
      t, action := Episode(t, coins[e], picks[e]);
      trace, actions := trace + [t], actions + [action];
      e := e + 1;
    }
  }
}
