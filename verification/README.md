# A verified model of a Q-learning CPU-scheduling simulator

The system is a teaching simulator that picks which of a few synthetic
processes runs next. It does not use a priority or round-robin rule. It
learns a per-process value table (a "Q-table") and runs the process whose
row sums highest, for one time quantum of 2 units. After each choice it
writes a snapshot for a viewer. This project models, in Dafny:

- **Numbers**: `Max`, `Min`, integer column projection and sums, shared by the other modules.
- **Processes**: the process record of the simulator, which has a burst,
  a waiting time, a priority and CPU and memory fractions. It covers
  start-up, one quantum of execution, the resampling of the dynamic
  attributes, the weighted reward, the total remaining burst, and the
  number of quanta still needed (the sum of ceil(burst / 2)).
- **QTable**: the 10 x 5 table. It covers initialisation and the in-place
  learning update, where each slot is blended with the non-negative maximum
  of the row as it stands when that slot is reached. It also covers zeroing
  the row of a completed process, and the arg-max selection with its -1e9
  sentinel and lowest-id tie-break.
- **Simulator**: the main loop of the simulator. One pass learns, selects,
  publishes a snapshot, executes, ages and resamples, publishes the final
  snapshot when everything completed, and zeroes the row. The whole run is
  modelled too, and so is a one-process run with burst 5.
- **Classroom**: the earlier variant (`os_project.c`). It learns once before the
  loop and writes no snapshots.
- **Baselines**: the classical round robin and SRTF (shortest remaining
  time first) schedulers of `RR_SRTF.c`. It also holds the corrected round robin
  of the finding below.
- **EarlyQ**: the first Q-learning prototype (`Q_Table_based_RL_approach_v0.c`). It has a
  state x action table, an epsilon-greedy choice, the one-cell update and
  ten training episodes over a shrinking ready queue.
- **DeepQ**: the environment and replay memory of the deep-Q variant
  (`Deep_Q_RL_based_Simulator.py`).

Calls to `rand()` / `np.random` become explicit parameters, one per
call. A `nat` draw is an unreduced random value: the model maps it into
the call's range with the code's own `rand() % 10 + 1`, and for
`np.random.randint(1, 11)` and its kin in DeepQ with the same `% 10 + 1`
shape. The exploration coin of EarlyQ, `(float)rand() / RAND_MAX`, is a
`real` parameter. Floating-point values are `real`.

Where the code's behaviour is surprising, the model follows the code:

- `update_state` also resamples a process in the pass that completes it.
- The final snapshot is written before the completed process's row is
  zeroed, so it shows the row as learned.
- The loop runs exactly once per quantum of work, sum(ceil(burst / 2))
  passes in all. The naive bound ceil(sum(burst) / 2) is lower than that
  when several bursts are odd.
- The final snapshot takes the next iteration number. Snapshots are
  therefore numbered 0 .. passes, with one more snapshot than passes.
- In the prototype, `ready_queue_size` drops in each of the ten episodes,
  so it ends at -5. The slot chosen is read from the array even when it
  lies past the current size.
- SRTF keeps `shortest` and `min_remaining` across time units. After a
  process completes, `shortest` still names it until another process is
  chosen, and its remaining time keeps going down in the meantime.

## Model

| member | source | states |
|---|---|---|
| Processes.InitializeProcesses | Simulator/Q-Table-Approach-Simulator/Simulation_Integrable_code_Q_Table.c:116-128 | one process per draw, ids 0..n-1, burst in 1..20, priority in 1..10, fractions in [0,1), waiting 0, none completed |
| Processes.RunQuantum | Simulator/Q-Table-Approach-Simulator/Simulation_Integrable_code_Q_Table.c:75-79 | the selected burst drops by the quantum, clamped at 0; completion happens exactly when the burst was at most the quantum; nothing else changes |
| Processes.ExecuteSelected | Simulator/Q-Table-Approach-Simulator/Simulation_Integrable_code_Q_Table.c:73-86 | one quantum for the selection; every other active process waits 2 more units; completed ones are untouched |
| Processes.UpdateState | Simulator/Q-Table-Approach-Simulator/Simulation_Integrable_code_Q_Table.c:190-194 | only priority, CPU and memory of that process change, to values in 1..10 and [0,1) |
| Processes.Reward | Simulator/Q-Table-Approach-Simulator/Simulation_Integrable_code_Q_Table.c:178-188 | a well-formed process earns at least -3.8 |
| Processes.RewardLinear | os_project.c:162-174 | the reward is linear with weights 0.35, -0.2, 0.2, -0.15, 0.05 and ignores the other fields |
| Processes.QuantaStep | Simulator/Q-Table-Approach-Simulator/Simulation_Integrable_code_Q_Table.c:75-79 | running a process with burst left removes exactly one quantum from the quanta still needed |
| Processes.QuantaZero | Simulator/Q-Table-Approach-Simulator/Simulation_Integrable_code_Q_Table.c:52-61 | no quanta are needed exactly when every process is completed |
| Processes.ExecuteBurst | Simulator/Q-Table-Approach-Simulator/Simulation_Integrable_code_Q_Table.c:73-89 | one pass removes min(2, burst) of the selection from the total remaining burst |
| QTable.InitializeQTable | Simulator/Q-Table-Approach-Simulator/Simulation_Integrable_code_Q_Table.c:130-136 | a 10 x 5 table of zeros |
| QTable.MaxNonNegIsMax | Simulator/Q-Table-Approach-Simulator/Simulation_Integrable_code_Q_Table.c:166-171 | max_next_q is non-negative, bounds every slot, and is 0 or one of the slots |
| QTable.PartialShape | Simulator/Q-Table-Approach-Simulator/Simulation_Integrable_code_Q_Table.c:165-173 | after j slot passes, the slots from j on are untouched and each earlier slot holds what its own pass wrote |
| QTable.UpdateRowSlots | Simulator/Q-Table-Approach-Simulator/Simulation_Integrable_code_Q_Table.c:165-173 | each new slot is the old one blended with max(0, row max), read when that slot is reached: new values before it, old ones after |
| QTable.UpdateRowFloor | Simulator/Q-Table-Approach-Simulator/Simulation_Integrable_code_Q_Table.c:172 | a lower bound shared by the old row and the reward survives the update |
| QTable.UpdateQTable | Simulator/Q-Table-Approach-Simulator/Simulation_Integrable_code_Q_Table.c:158-175 | the rows of active processes are learned from their own reward; the rows of completed processes and unused rows are kept |
| QTable.UpdateQTableSlots | Simulator/Q-Table-Approach-Simulator/Simulation_Integrable_code_Q_Table.c:158-175 | the per-slot in-place rule for every active process's row |
| QTable.RemoveCompletedProcess | Simulator/Q-Table-Approach-Simulator/Simulation_Integrable_code_Q_Table.c:196-201 | the row of that process becomes zero and the other rows are kept |
| QTable.SelectFrom | Simulator/Q-Table-Approach-Simulator/Simulation_Integrable_code_Q_Table.c:142-153 | the scan returns an active process scoring above -1e9, maximal, and strictly above every earlier active process; otherwise -1 |
| QTable.SelectAction | Simulator/Q-Table-Approach-Simulator/Simulation_Integrable_code_Q_Table.c:138-156 | the result is in -1..n-1 and satisfies the selection rule |
| QTable.SelectionUnique | Simulator/Q-Table-Approach-Simulator/Simulation_Integrable_code_Q_Table.c:148-151 | the strict comparison makes the selection unique |
| QTable.SelectionIgnoresAttributes | Simulator/Q-Table-Approach-Simulator/Simulation_Integrable_code_Q_Table.c:142-153 | the selection depends only on the table and the completion flags |
| QTable.UpdateConsistent | Simulator/Q-Table-Approach-Simulator/Simulation_Integrable_code_Q_Table.c:158-175 | learning keeps the table shape, the zero rows of finished processes, and the -4 floor on every entry |
| QTable.SelectionFindsActive | Simulator/Q-Table-Approach-Simulator/Simulation_Integrable_code_Q_Table.c:138-156 | in a reachable state, -1 is returned exactly when all processes are completed |
| QTable.InitialConsistent | Simulator/Q-Table-Approach-Simulator/Simulation_Integrable_code_Q_Table.c:44-45 | the initial processes and the zero table form a consistent state |
| QTable.SelectOnEqualScores | os_project.c:123-141 | with equal scores the first active process is chosen |
| QTable.SelectOnInitialTable | os_project.c:115-141 | on an all-zero table the first active process is chosen; a property of the selection alone, since both programs update the table before their first selection |
| QTable.AdvanceConsistent | Simulator/Q-Table-Approach-Simulator/Simulation_Integrable_code_Q_Table.c:73-106 | execution, aging, resampling and row removal keep the state consistent |
| QTable.AdvanceQuanta | Simulator/Q-Table-Approach-Simulator/Simulation_Integrable_code_Q_Table.c:73-89 | every pass consumes exactly one quantum of the remaining work |
| QTable.AdvanceKeepsCompleted | Simulator/Q-Table-Approach-Simulator/Simulation_Integrable_code_Q_Table.c:75-86 | completion is permanent |
| Simulator.PassSnapshots | Simulator/Q-Table-Approach-Simulator/Simulation_Integrable_code_Q_Table.c:71-101 | one snapshot announcing the selection and holding the pre-execution tables; a second one with the next number exactly when all processes are now completed |
| Simulator.Iterate | Simulator/Q-Table-Approach-Simulator/Simulation_Integrable_code_Q_Table.c:52-110 | one pass learns every active row, runs the selected process on the learned table, ages the others, resamples it and zeroes its row if it completed; the first snapshot shows the processes before the pass with the learned table and announces the selection, and a second one (exactly when all are completed) shows the processes after it with the same table; the pass keeps the state consistent, uses one quantum and cuts the total burst by min(2, burst of the selection) |
| Simulator.TraceExtend | Simulator/Q-Table-Approach-Simulator/Simulation_Integrable_code_Q_Table.c:71-100 | a pass's snapshots extend a consecutively numbered trace whose only completion trailer is the last one |
| Simulator.SimTraceUnique | Simulator/Q-Table-Approach-Simulator/Simulation_Integrable_code_Q_Table.c:52-110 | two runs from the same state with the same draws that each stop at their first all-completed state are the same run, with the same snapshots: a pass is determined by its start state and draw |
| Simulator.Simulate | Simulator/Q-Table-Approach-Simulator/Simulation_Integrable_code_Q_Table.c:41-114 | the run is a sequence of passes from the fresh processes, the zero table and snapshot number 0, each pass learning, selecting on the learned table and advancing on it with the draw for its first snapshot's number, and the snapshots are exactly those the passes wrote, in order; the run ends with every process completed and the table all zero; it writes quanta + 1 snapshots numbered 0.., only the last announcing completion, and none when there are no processes |
| Simulator.SingleProcessScenario | Simulator/Q-Table-Approach-Simulator/Simulation_Integrable_code_Q_Table.c:52-110 | burst 5 gives three executions and four snapshots, the last one final |
| Classroom.ClassroomKeepsSelection | os_project.c:54-90 | with the table fixed, the process just run stays selected until it completes |
| Classroom.ClassroomStep | os_project.c:65-90 | one pass on the table as it stands: the selected process loses min(2, burst), completes exactly at 0, keeps its id and waiting time and gets the resampled priority, cpu and memory; every other active process waits 2 more, completed ones are untouched; only the selection's row can change, and it is zeroed exactly when the selection completed; one quantum is consumed |
| Classroom.ClassroomRun | os_project.c:40-99 | the run starts from the fresh processes and the table learned once from them, before the loop; it is a sequence of passes, each selecting on the table as it stands and advancing with the draw for its number, so every row of every table along the way is the learned row or zero; it makes exactly quanta-many passes and ends with all processes completed and every cell of the table 0 |
| Baselines.NoReadyProcess | RR_SRTF.c:65-71 | the search reports none exactly when no arrived process has work |
| Baselines.RunSlotShape | RR_SRTF.c:51-58 | one slot advances the clock by min(quantum, remaining), lowers that remaining burst by the same amount, and writes the waiting time finish - burst - arrival exactly when the process finishes |
| Baselines.RunSlotKeepsState | RR_SRTF.c:51-58 | one slot of a ready process keeps every process consistent with the clock: unrun, or partly run after arriving early enough, or finished with non-negative waiting and a finish time not after the clock |
| Baselines.RunSlotEffect | RR_SRTF.c:51-58 | running a ready process hands it min(quantum, remaining): the clock and both work sums move by that amount, only its remaining burst changes, its waiting time becomes finish - burst - arrival exactly when it finishes and is untouched otherwise, and the round-robin state is kept |
| Baselines.RoundRobinPass | RR_SRTF.c:45-60 | a sweep visits the processes in index order; each one that has arrived and has work when its turn comes (start time plus the work handed to those before it) gets min(quantum, remaining), and one that finishes gets waiting time = clock after its turn - burst - arrival; everyone ready at the start runs; the clock advances by the work done; `done` stays 1 exactly when nobody was ready at the start, and then nothing changes |
| Baselines.SweepStep | RR_SRTF.c:47-59 | one more turn of the sweep extends the exact description of the turns before it |
| Baselines.SweepUnique | RR_SRTF.c:47-60 | a sweep's end state (clock, remaining bursts, waiting times) is fixed by its start |
| Baselines.RoundRobinStep | RR_SRTF.c:45-74 | one outer iteration is a sweep followed by one idle clock step exactly when the sweep ran something and nobody is ready after it; when nobody was ready at the start nothing changes |
| Baselines.SweepThenIdleUnique | RR_SRTF.c:45-74 | one outer iteration has a single outcome |
| Baselines.RRTraceExtend | RR_SRTF.c:44-75 | the sequence of sweep-start states grows by one iteration from its last state when someone is ready there |
| Baselines.RRTraceUnique | RR_SRTF.c:44-75 | two sweep-start sequences from the same input that both end where nobody is ready are equal, so the result of round_robin is determined by its input |
| Baselines.RoundRobin | RR_SRTF.c:35-76 | as written: returns the last of the sweep-start states, which start at time 0 with all work remaining and follow each other by one sweep plus the idle check while someone is ready; at exit no arrived process has work; clock = work done + idle steps; idle steps are at most the work done |
| Baselines.RoundRobinLeavesLateArrival | RR_SRTF.c:44-75 | arrivals [0,5], bursts [1,1], quantum 2: P1 never runs |
| Baselines.RoundRobinOneProcess | RR_SRTF.c:44-75 | arrival 0, burst 3, quantum 2: the process finishes at 3 with waiting time 0, and the clock ends at 4 |
| Baselines.RoundRobinIdle | RR_SRTF.c:35-76 | corrected: every process with a positive burst finishes, with non-negative waiting and finish time arrival + burst + waiting not after the end |
| Baselines.ScanShortest | RR_SRTF.c:90-95 | the sweep picks the arrived, unfinished process with least remaining time (lowest index among equals) when it beats the bound, otherwise keeps the old choice |
| Baselines.SelectKeeps | RR_SRTF.c:89-100 | the sweep keeps the SRTF invariant; no active choice means no process is both arrived and active |
| Baselines.WaitingForArrival | RR_SRTF.c:97-100 | idling only happens before the last arrival |
| Baselines.WorkKeeps | RR_SRTF.c:102-111 | one unit of work keeps the invariant, advances the clock by 1 and completes the choice exactly when its remaining time reaches 0, recording its waiting time |
| Baselines.SrtfRun | RR_SRTF.c:89-112 | every iteration of the loop, idle or working, advances the clock by exactly one tick and keeps the arrays' lengths |
| Baselines.SrtfLoopKeeps | RR_SRTF.c:89-112 | one iteration keeps the SRTF invariant and either shrinks the pending work or idles before the last arrival, so the loop ends |
| Baselines.SrtfFinished | RR_SRTF.c:89-109 | once every process is completed, each has remaining time 0 or less, a non-negative waiting time and finishes by the clock; the clock is at least the total burst |
| Baselines.Srtf | RR_SRTF.c:78-113 | the result is exactly the state after the first number of loop iterations at which every process is completed (waiting times, clock and remaining times); every process finishes with non-negative waiting and finish time not after the end; the run lasts at least the total burst |
| Baselines.SrtfTwoProcessesRun | RR_SRTF.c:89-112 | arrivals [0, 1], bursts [3, 1]: the loop's states after 0 to 4 iterations, with P1 preempting P0 at time 1 |
| Baselines.SrtfTwoProcesses | RR_SRTF.c:78-113 | arrivals [0, 1], bursts [3, 1]: the waiting times are [1, 0] and the clock ends at 4 |
| EarlyQ.InitialQueue | Q_Table_based_RL_approach_v0.c:38-49 | five processes with pids 0..4, burst estimates 1..10, waiting 0..9, priority 0, not in the CPU |
| EarlyQ.ZeroQ | Q_Table_based_RL_approach_v0.c:25 | the 6 x 5 table starts all zero |
| EarlyQ.BestAction | Q_Table_based_RL_approach_v0.c:57-64 | the exploitation scan returns the lowest index of a maximum |
| EarlyQ.ArgMaxUnique | Q_Table_based_RL_approach_v0.c:59-63 | the lowest-index maximum is unique |
| EarlyQ.ChooseAction | Q_Table_based_RL_approach_v0.c:52-65 | below epsilon 0.2 the action is the random pick mod 5, otherwise the arg-max; it is always a valid action |
| EarlyQ.RowMax | Q_Table_based_RL_approach_v0.c:75-80 | max_q_next is a slot of the row and bounds every slot |
| EarlyQ.RewardAntitone | Q_Table_based_RL_approach_v0.c:68-71 | the reward never grows when waiting or burst grows, and every extra unit of either costs exactly one point |
| EarlyQ.UpdateQ | Q_Table_based_RL_approach_v0.c:74-83 | only cell [state][action] changes, moving a tenth of the way to reward + 0.9 * max of the next row |
| EarlyQ.NextState | Q_Table_based_RL_approach_v0.c:156 | the next state is valid and equals the action |
| EarlyQ.RefreshPriorities | Q_Table_based_RL_approach_v0.c:142-146 | entries within the size that are not in the CPU take their pid's column as priority; the rest are kept |
| EarlyQ.ShiftOut | Q_Table_based_RL_approach_v0.c:170-175 | entries after the action move one left in order, the size drops by one, and the old last slot is kept |
| EarlyQ.Dispatch | Q_Table_based_RL_approach_v0.c:128-165 | the scheduled slot ends unchanged; the other slots within the size get refreshed priorities; nothing stays in the CPU |
| EarlyQ.AddBonus | Q_Table_based_RL_approach_v0.c:168 | 0.1 is added to the scheduled pid's column in the next state and nothing else changes |
| EarlyQ.Learn | Q_Table_based_RL_approach_v0.c:156-168 | the learned cell moves a tenth of the way to reward + 0.9 * (largest value of the next state's row), the scheduled pid's cell in the next state gains 0.1 (both when they are the same cell), and no other cell changes |
| EarlyQ.Episode | Q_Table_based_RL_approach_v0.c:124-185 | an episode chooses by the epsilon-greedy rule, moves to that state and shrinks the size by one; the table is updated from the chosen slot's reward 20 - waiting - burst and gets the bonus at its pid; the queue is the dispatched queue with the chosen slot shifted out when it lies below the size, and unchanged otherwise |
| EarlyQ.Train | Q_Table_based_RL_approach_v0.c:113-185 | the run starts from the zero table, the freshly initialised queue, size 5 and state 0, and is a sequence of ten episodes, each related to the next training state exactly as one Episode relates them, with the episode's own draws; the size ends at 5 - 10 |
| DeepQ.NewProcess | Deep_Q_RL_based_Simulator.py:26-33 | priority 1..10, burst 1..20, I/O flag 0/1, memory 1..100, waiting 0, not in the CPU |
| DeepQ.NewEnv | Deep_Q_RL_based_Simulator.py:156-168 | five fresh processes with pids 0..4 and the clock at 0 |
| DeepQ.EnvRewardBounds | Deep_Q_RL_based_Simulator.py:198-199 | for non-negative waiting the reward is at most 1, only a finished process can earn a positive reward, and a finished one earns exactly 1 - 0.1 x waiting |
| DeepQ.EnvRewardAntitone | Deep_Q_RL_based_Simulator.py:198-199 | more waiting never earns more, and finishing is worth exactly one point more than not finishing after the same wait |
| DeepQ.Step | Deep_Q_RL_based_Simulator.py:173-196 | processes with other pids wait 1 more unit; the chosen one loses 1 unit of burst (clamped) and enters the CPU; the clock ticks; done exactly when all bursts are 0 |
| DeepQ.TotalBurstNonNeg | Deep_Q_RL_based_Simulator.py:190 | the total burst is non-negative and is 0 exactly when the episode is done |
| DeepQ.StepBurst | Deep_Q_RL_based_Simulator.py:183 | a step removes one unit from the total burst exactly when the chosen process had work left |
| DeepQ.Push | Deep_Q_RL_based_Simulator.py:68-73 | a push appends and drops the oldest entry once the capacity is reached |
| DeepQ.PushAllKeepsNewest | Deep_Q_RL_based_Simulator.py:68-79 | after any pushes the memory is exactly the newest min(capacity, pushed) entries, in push order |
| DeepQ.MemoryLength | Deep_Q_RL_based_Simulator.py:78-79 | the length is min(capacity, everything pushed) |

## Left out

- The Qt viewer (`GUI_for_Simulation/`) is not modelled. It writes `input_data.txt`, runs the simulator, and then shows one snapshot at a time: each click on Next loads the next `output_iteration_N.txt`, displays it and deletes the file (mainwindow.cpp:116-161).
- `save_to_file`, `display_processes`, `display_q_table` and every `printf`/`scanf` are not modelled. A snapshot is modelled by its number, its tables and its trailer, not by its text or its file name.
- Processes.InitializeProcesses: the process count read by `scanf` is not checked against MAX_PROCESSES in the code. Here it is a precondition, because a larger count writes past the arrays.
- Float rounding and the float casts are not modelled: all learned values are exact reals.
- QTable.SelectionFindsActive: "-1 exactly when all are completed" is proved only for consistent states. In an arbitrary table, scores of -1e9 or less also give -1. Every state the simulator reaches is consistent.
- The `fork()`-based `initialize_processes` of `RR_SRTF.c` is not modelled, because it only creates demo child processes. `calculate_average_waiting_time` (a float division) and `main` are not modelled either. The arrival and burst times are inputs.
- Baselines.Srtf: bursts must be in 1 .. INT_MAX-1. With a burst of 0 a process can never complete and the loop never ends; a burst of INT_MAX is never chosen. The 32-bit overflow of `time` is not modelled.
- Baselines.RoundRobin: the 32-bit overflow of `time` and of the waiting-time arithmetic is not modelled.
- Baselines.RoundRobin: the quantum must be at least 1, and so must that of RoundRobinPass, RoundRobinStep and RoundRobinIdle. `main` reads it with `scanf` (RR_SRTF.c:134) and does not check it. With a quantum of 0 or less, a ready process never loses work, so the loop never returns.
- `print_ready_queue`, `display_q_table`, the state names and the final printout of `Q_Table_based_RL_approach_v0.c` are not modelled.
- DeepQ: the network (`DQN`), `DQNScheduler` and its optimiser are not modelled, as floating-point tensor training. The epsilon schedule, `ReplayMemory.sample`, `get_state`, `update_performance_metrics`, the training loop and the plots are not modelled either.
- DeepQ.Step: the action must be a valid index. Python would also accept negative indices, but the agent never produces them.

## Findings

| source | as written | input that shows it | evidently intended | confidence | as-written member | corrected member |
|---|---|---|---|---|---|---|
| RR_SRTF.c:44-75 | `round_robin` stops as soon as a sweep finds no arrived process with work, even when later arrivals still have work | arrivals [0, 5], bursts [1, 1], quantum 2: P0 finishes at 1, the clock steps to 2, the next sweep finds nobody ready and the loop ends; P1 never runs | the clock idles until the next arrival, and the loop ends only when every process has finished | not executed; proved from the model | Baselines.RoundRobinLeavesLateArrival | Baselines.RoundRobinIdle |
