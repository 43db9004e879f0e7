/**
 The completion barrier of the launch benchmarks: every task body increments an atomic
 counter outside the lock, the task whose increment reaches the target takes the lock and
 notifies, and the main thread waits for the counter under the lock.  The barrier is reused
 round after round with a new target, while tasks of an earlier round may still be between
 their increment and their notification.

 The two programs differ only in how a round's tasks are launched, which is a `Plan`.
 */
module Barrier {
  import opened Wrappers
  import opened Sums

  // ------------------------------------------------------------------ launch plans

  /** `Leaf(b)` runs `b` task bodies through `parallel_for`; `Fork` launches further closures. */
  datatype Plan = Leaf(bodies: nat) | Fork(children: seq<Plan>)

  function Bodies(p: Plan): nat
    decreases p, 0
  {
    match p
    case Leaf(b) => b
    case Fork(ps) => BodiesOf(ps)
  }

  function BodiesOf(ps: seq<Plan>): nat
    decreases ps, 1
  {
    if ps == [] then 0 else Bodies(ps[0]) + BodiesOf(ps[1..])
  }

  function Pow2(k: nat): nat {
    if k == 0 then 1 else 2 * Pow2(k - 1)
  }

  /** `_launch_tasks_tree` from `level`, in intra_inter_benchmark. */
  function LaunchTree(level: nat, endLevel: nat, subIter: nat): Plan
    requires level <= endLevel
    decreases endLevel - level
  {
    if level == endLevel then Leaf(subIter)
    else Fork([LaunchTree(level + 1, endLevel, subIter), LaunchTree(level + 1, endLevel, subIter)])
  }

  /** The launching loop of at_launch_benchmark: each task is launched three closures deep. */
  function LaunchLoop(tasks: nat): Plan {
    Fork(seq(tasks, _ => Fork([Fork([Leaf(1)])])))
  }

  /** The recursive launch creates exactly 2^(levels) * subIter task bodies. */
  lemma {:induction false} LaunchTreeBodies(level: nat, endLevel: nat, subIter: nat)
    requires level <= endLevel
    ensures Bodies(LaunchTree(level, endLevel, subIter)) == Pow2(endLevel - level) * subIter
    decreases endLevel - level
  {
    if level < endLevel {
      LaunchTreeBodies(level + 1, endLevel, subIter);
      var t := LaunchTree(level + 1, endLevel, subIter);
      assert [t, t][1..] == [t];
      assert BodiesOf([t]) == Bodies(t);
      assert BodiesOf([t, t]) == 2 * Bodies(t);
    }
  }

  lemma {:induction false} RepeatBodies(p: Plan, k: nat)
    ensures BodiesOf(seq(k, _ => p)) == k * Bodies(p)
  {
    if k > 0 {
      RepeatBodies(p, k - 1);
      assert seq(k, _ => p)[1..] == seq(k - 1, _ => p);
    }
  }

  lemma LaunchLoopBodies(tasks: nat)
    ensures Bodies(LaunchLoop(tasks)) == tasks
  {
    var p := Fork([Fork([Leaf(1)])]);
    assert Bodies(p) == 1 by {
      assert [Leaf(1)][1..] == [];
      assert BodiesOf([Leaf(1)]) == 1;
      assert [Fork([Leaf(1)])][1..] == [];
      assert BodiesOf([Fork([Leaf(1)])]) == 1;
    }
    RepeatBodies(p, tasks);
    assert LaunchLoop(tasks).children == seq(tasks, _ => p);
  }

  /** One use of the barrier: the target the program stores, and what it then launches. */
  datatype Round = Round(target: int, plan: Plan)

  /** The stored targets are the numbers of bodies launched. */
  predicate Matched(rounds: seq<Round>) {
    forall r :: 0 <= r < |rounds| ==> rounds[r].target == Bodies(rounds[r].plan)
  }

  // ------------------------------------------------------------------ states

  /** Program points of a task thread; `left` bodies remain in its chunk after the current one. */
  datatype Pc =
    | Launching(pending: seq<Plan>)
    | Splitting(bodies: nat)         // parallel_for handing out chunks of its range
    | Body(left: nat)                // at the head of the chunk's loop
    | Increment(left: nat)           // body done, about to increment the counter
    | Compare(cur: int, left: nat)   // incremented to `cur`, about to read the target
    | WantLock(left: nat)
    | Notify(left: nat)              // holds the lock
    | Unlock(left: nat)              // holds the lock, has notified

  datatype Task = Task(round: nat, pc: Pc)

  datatype MainPc =
    | Idle                           // between rounds
    | Reset(plan: Plan)              // target stored, about to reset the counter
    | Launch(pending: seq<Plan>)
    | LockWait
    | CheckWait                      // holds the lock, testing the counter
    | AsleepWait
    | Done

  datatype Owner = Free | ByMain | ByTask(k: nat)

  /** `bodies` counts the task bodies finished since the last reset and `log` records that count
      each time `wait` returns; both are history that the program does not read. */
  datatype State = State(
    main: MainPc,
    rounds: seq<Round>,      // rounds not yet begun
    round: nat,            // rounds begun
    target: int,
    counter: int,
    owner: Owner,
    tasks: seq<Task>,
    bodies: nat,
    log: seq<nat>)

  datatype Action = GoMain | GoTask(k: nat, chunk: nat) | Wake

  function Init(rounds: seq<Round>): State {
    State(Idle, rounds, 0, 0, 0, Free, [], 0, [])
  }

  // ------------------------------------------------------------------ steps

  function Started(p: Plan): Pc {
    match p
    case Leaf(b) => Splitting(b)
    case Fork(ps) => Launching(ps)
  }

  /** What the main thread itself launches when it begins a round. */
  function Roots(p: Plan): seq<Plan> {
    if p.Fork? then p.children else [p]
  }

  function MainStep(s: State): Option<State> {
    match s.main
    case Idle =>
      if s.rounds == [] then Some(s.(main := Done))
      else Some(s.(main := Reset(s.rounds[0].plan), rounds := s.rounds[1..], round := s.round + 1,
                   target := s.rounds[0].target))
    case Reset(plan) => Some(s.(main := Launch(Roots(plan)), counter := 0, bodies := 0))
    case Launch(pending) =>
      if pending == [] then Some(s.(main := LockWait))
      else Some(s.(main := Launch(pending[1..]), tasks := s.tasks + [Task(s.round, Started(pending[0]))]))
    case LockWait => if s.owner.Free? then Some(s.(main := CheckWait, owner := ByMain)) else None
    case CheckWait =>
      if s.counter < s.target then Some(s.(main := AsleepWait, owner := Free))
      else Some(s.(main := Idle, owner := Free, log := s.log + [s.bodies]))
    case AsleepWait => None
    case Done => None
  }

  function AwakenMain(main: MainPc): MainPc {
    if main.AsleepWait? then LockWait else main
  }

  function At(s: State, k: nat, pc: Pc): State
    requires k < |s.tasks|
  {
    s.(tasks := s.tasks[k := s.tasks[k].(pc := pc)])
  }

  /** One step of task thread `k`; `chunk` is the size parallel_for chooses when it splits its range. */
  function TaskStep(s: State, k: nat, chunk: nat): Option<State>
    requires k < |s.tasks|
  {
    match s.tasks[k].pc
    case Launching(pending) =>
      if pending == [] then None
      else
        var s' := At(s, k, Launching(pending[1..]));
        Some(s'.(tasks := s'.tasks + [Task(s.tasks[k].round, Started(pending[0]))]))
    case Splitting(b) =>
      if 1 <= chunk <= b then
        var s' := At(s, k, Splitting(b - chunk));
        Some(s'.(tasks := s'.tasks + [Task(s.tasks[k].round, Body(chunk))]))
      else None
    case Body(left) => if left == 0 then None else Some(At(s, k, Increment(left - 1)).(bodies := s.bodies + 1))
    case Increment(left) => Some(At(s, k, Compare(s.counter + 1, left)).(counter := s.counter + 1))
    case Compare(cur, left) => Some(At(s, k, if cur == s.target then WantLock(left) else Body(left)))
    case WantLock(left) => if s.owner.Free? then Some(At(s, k, Notify(left)).(owner := ByTask(k))) else None
    case Notify(left) => Some(At(s, k, Unlock(left)).(main := AwakenMain(s.main)))
    case Unlock(left) => Some(At(s, k, Body(left)).(owner := Free))
  }

  function Step(s: State, a: Action): Option<State> {
    match a
    case GoMain => MainStep(s)
    case GoTask(k, chunk) => if k < |s.tasks| then TaskStep(s, k, chunk) else None
    case Wake => if s.main.AsleepWait? then Some(s.(main := LockWait)) else None
  }

  function Exec(s: State, run: seq<Action>): Option<State>
    decreases |run|
  {
    if run == [] then Some(s) else
      match Step(s, run[0])
      case None => None
      case Some(s') => Exec(s', run[1..])
  }

  // ------------------------------------------------------------------ the invariant

  /** Increments that a task thread, and everything it will still launch, has yet to make. */
  function Owes(t: Task): nat {
    match t.pc
    case Launching(ps) => BodiesOf(ps)
    case Splitting(b) => b
    case Body(left) => left
    case Increment(left) => left + 1
    case Compare(_, left) => left
    case WantLock(left) => left
    case Notify(left) => left
    case Unlock(left) => left
  }

  function Finished(t: Task): nat {
    if t.pc.Increment? then 1 else 0
  }

  predicate Holds(pc: Pc) {
    pc.Notify? || pc.Unlock?
  }

  /** Between storing the target and the return of `wait`. */
  predicate InRound(main: MainPc) {
    main.Launch? || main.LockWait? || main.CheckWait? || main.AsleepWait?
  }

  function Unlaunched(main: MainPc): nat {
    if main.Launch? then BodiesOf(main.pending) else 0
  }

  /** A task of the current round that is bound to notify before it does anything else. */
  predicate Committed(s: State, k: nat) {
    && k < |s.tasks|
    && s.tasks[k].round == s.round
    && (var pc := s.tasks[k].pc;
        pc.WantLock? || pc.Notify? || (pc.Compare? && pc.cur == s.target))
  }

  ghost predicate LockOk(s: State) {
    && (s.owner.ByMain? <==> s.main.CheckWait?)
    && (s.owner.ByTask? ==> s.owner.k < |s.tasks|)
    && (forall k :: 0 <= k < |s.tasks| ==> (Holds(s.tasks[k].pc) <==> s.owner == ByTask(k)))
  }

  /** Conservation: what was counted plus what is still owed is the round's target. */
  ghost predicate CountOk(s: State) {
    && (InRound(s.main) ==> s.counter + Sum(Owes, s.tasks) + Unlaunched(s.main) == s.target)
    && (InRound(s.main) ==> s.bodies == s.counter + Sum(Finished, s.tasks))
    && (!InRound(s.main) ==> Sum(Owes, s.tasks) == 0)
    && (s.main.Reset? ==> s.target == Bodies(s.main.plan))
    && s.counter >= 0
  }

  ghost predicate RoundsOk(rounds: seq<Round>, s: State) {
    && s.round <= |rounds|
    && s.rounds == rounds[s.round..]
    && (s.main.Done? ==> s.round == |rounds|)
    && |s.log| == s.round - (if InRound(s.main) || s.main.Reset? then 1 else 0)
    && (InRound(s.main) || s.main.Reset? ==> s.target == Bodies(rounds[s.round - 1].plan))
    && (forall r :: 0 <= r < |s.log| ==> s.log[r] == Bodies(rounds[r].plan))
    && (forall k :: 0 <= k < |s.tasks| ==>
          s.tasks[k].round <= s.round && (s.tasks[k].round < s.round ==> Owes(s.tasks[k]) == 0))
  }

  ghost predicate WakeupOk(s: State) {
    s.main.AsleepWait? && s.counter >= s.target ==> exists k :: Committed(s, k)
  }

  ghost predicate Inv(rounds: seq<Round>, s: State) {
    Matched(rounds) && LockOk(s) && CountOk(s) && RoundsOk(rounds, s) && WakeupOk(s)
  }

  lemma InitInv(rounds: seq<Round>)
    requires Matched(rounds)
    ensures Inv(rounds, Init(rounds))
  {
  }

  lemma {:induction false} FinishedAtMostOwes(tasks: seq<Task>)
    ensures Sum(Finished, tasks) <= Sum(Owes, tasks)
  {
    if tasks != [] {
      FinishedAtMostOwes(tasks[1..]);
    }
  }

  lemma StartedOwes(r: nat, p: Plan)
    ensures Owes(Task(r, Started(p))) == Bodies(p) && Finished(Task(r, Started(p))) == 0
  {
  }

  lemma RootsBodies(p: Plan)
    ensures BodiesOf(Roots(p)) == Bodies(p)
  {
    if p.Leaf? {
      assert [p][1..] == [];
    }
  }

  lemma MainStepCount(s: State, s': State)
    requires CountOk(s) && Matched(s.rounds) && MainStep(s) == Some(s')
    ensures CountOk(s')
  {
    FinishedAtMostOwes(s.tasks);
    match s.main
    case Reset(plan) => RootsBodies(plan);
    case Launch(pending) =>
      if pending != [] {
        var t := Task(s.round, Started(pending[0]));
        StartedOwes(s.round, pending[0]);
        SumAppend(Owes, s.tasks, t);
        SumAppend(Finished, s.tasks, t);
      }
    case _ =>
  }

  lemma MainStepRounds(rounds: seq<Round>, s: State, s': State)
    requires Matched(rounds) && CountOk(s) && RoundsOk(rounds, s) && MainStep(s) == Some(s')
    ensures RoundsOk(rounds, s')
  {
    match s.main
    case Idle =>
      forall k | 0 <= k < |s.tasks| ensures Owes(s.tasks[k]) == 0 {
        SumAtLeast(Owes, s.tasks, k);
      }
    case CheckWait => FinishedAtMostOwes(s.tasks);
    case _ =>
  }

  lemma MainStepInv(rounds: seq<Round>, s: State, s': State)
    requires Inv(rounds, s) && MainStep(s) == Some(s')
    ensures Inv(rounds, s')
  {
    hide Owes, Finished, Sum, Bodies, BodiesOf;
    assert Matched(s.rounds) by { assert s.rounds == rounds[s.round..]; }
    MainStepCount(s, s');
    MainStepRounds(rounds, s, s');
  }

  /** A task step that launches: the child takes over part of what the parent owed. */
  lemma Spawned(s: State, k: nat, chunk: nat, s': State)
    requires k < |s.tasks| && TaskStep(s, k, chunk) == Some(s') && |s'.tasks| > |s.tasks|
    ensures |s'.tasks| == |s.tasks| + 1
    ensures var t, t', child := s.tasks[k], s'.tasks[k], s'.tasks[|s.tasks|];
            && s'.tasks == s.tasks[k := t'] + [child]
            && Owes(t) == Owes(t') + Owes(child)
            && Finished(t) == Finished(t') == Finished(child) == 0
            && TaskWeight(t) > TaskWeight(t') + TaskWeight(child)
            && child.round == t'.round == t.round
            && s'.main == s.main && s'.rounds == s.rounds
  {
    var pc := s.tasks[k].pc;
    if pc.Launching? {
      StartedOwes(s.tasks[k].round, pc.pending[0]);
      assert TaskWeight(Task(s.tasks[k].round, Started(pc.pending[0]))) == PlanWeight(pc.pending[0]);
    }
  }

  /** A task step that launches nothing. */
  lemma Stayed(s: State, k: nat, chunk: nat, s': State)
    requires k < |s.tasks| && TaskStep(s, k, chunk) == Some(s') && |s'.tasks| <= |s.tasks|
    ensures |s'.tasks| == |s.tasks|
    ensures var t, t' := s.tasks[k], s'.tasks[k];
            && s'.tasks == s.tasks[k := t']
            && s'.counter + Owes(t') == s.counter + Owes(t)
            && s'.bodies + s.counter + Finished(t) == s.bodies + s'.counter + Finished(t')
            && MainWeight(s'.main) + TaskWeight(t') < MainWeight(s.main) + TaskWeight(t)
            && t'.round == t.round && s'.rounds == s.rounds
  {
  }

  /** A task step moves work between the tasks and the counter without losing or inventing any. */
  lemma TaskStepConserves(s: State, k: nat, chunk: nat, s': State)
    requires k < |s.tasks| && TaskStep(s, k, chunk) == Some(s')
    ensures s'.counter + Sum(Owes, s'.tasks) == s.counter + Sum(Owes, s.tasks)
    ensures s'.bodies + s.counter + Sum(Finished, s.tasks) == s.bodies + s'.counter + Sum(Finished, s'.tasks)
  {
    var t' := s'.tasks[k];
    SumUpdate(Owes, s.tasks, k, t');
    SumUpdate(Finished, s.tasks, k, t');
    if |s'.tasks| > |s.tasks| {
      Spawned(s, k, chunk, s');
      SumAppend(Owes, s.tasks[k := t'], s'.tasks[|s.tasks|]);
      SumAppend(Finished, s.tasks[k := t'], s'.tasks[|s.tasks|]);
    } else {
      Stayed(s, k, chunk, s');
    }
  }

  lemma TaskStepCount(s: State, k: nat, chunk: nat, s': State)
    requires CountOk(s) && k < |s.tasks| && TaskStep(s, k, chunk) == Some(s')
    ensures CountOk(s')
  {
    TaskStepConserves(s, k, chunk, s');
    SumAtLeast(Owes, s.tasks, k);
  }

  lemma TaskStepRounds(rounds: seq<Round>, s: State, k: nat, chunk: nat, s': State)
    requires RoundsOk(rounds, s) && k < |s.tasks| && TaskStep(s, k, chunk) == Some(s')
    ensures RoundsOk(rounds, s')
  {
    if |s'.tasks| > |s.tasks| {
      Spawned(s, k, chunk, s');
    } else {
      Stayed(s, k, chunk, s');
    }
  }

  lemma TaskStepLock(s: State, k: nat, chunk: nat, s': State)
    requires LockOk(s) && k < |s.tasks| && TaskStep(s, k, chunk) == Some(s')
    ensures LockOk(s')
  {
  }

  /** A task that still owes an increment belongs to the round being waited for. */
  lemma OnlyCurrentRoundOwes(rounds: seq<Round>, s: State, k: nat)
    requires Inv(rounds, s) && k < |s.tasks| && Owes(s.tasks[k]) > 0
    ensures s.tasks[k].round == s.round && InRound(s.main) && s.counter < s.target
  {
    SumAtLeast(Owes, s.tasks, k);
  }

  lemma TaskStepWakeup(rounds: seq<Round>, s: State, k: nat, chunk: nat, s': State)
    requires Inv(rounds, s) && k < |s.tasks| && TaskStep(s, k, chunk) == Some(s')
    ensures WakeupOk(s')
  {
    if s'.main.AsleepWait? && s'.counter >= s'.target {
      if s.tasks[k].pc.Increment? {
        OnlyCurrentRoundOwes(rounds, s, k);
        assert Committed(s', k);
      } else {
        var w :| Committed(s, w);
        assert Committed(s', w);
      }
    }
  }

  lemma StepInv(rounds: seq<Round>, s: State, a: Action, s': State)
    requires Inv(rounds, s) && Step(s, a) == Some(s')
    ensures Inv(rounds, s')
  {
    match a
    case GoMain => MainStepInv(rounds, s, s');
    case GoTask(k, chunk) =>
      TaskStepCount(s, k, chunk, s');
      TaskStepRounds(rounds, s, k, chunk, s');
      TaskStepLock(s, k, chunk, s');
      TaskStepWakeup(rounds, s, k, chunk, s');
    case Wake =>
  }

  lemma {:induction false} ExecInv(rounds: seq<Round>, s: State, run: seq<Action>)
    requires Inv(rounds, s)
    ensures Exec(s, run).Some? ==> Inv(rounds, Exec(s, run).value)
    decreases |run|
  {
    if run != [] {
      var next := Step(s, run[0]);
      if next.Some? {
        StepInv(rounds, s, run[0], next.value);
        ExecInv(rounds, next.value, run[1..]);
      }
    }
  }

  /** Every state of every run of any sequence of rounds satisfies the invariant. */
  lemma RunInv(rounds: seq<Round>, run: seq<Action>)
    requires Matched(rounds)
    ensures Exec(Init(rounds), run).Some? ==> Inv(rounds, Exec(Init(rounds), run).value)
  {
    InitInv(rounds);
    ExecInv(rounds, Init(rounds), run);
  }

  // ------------------------------------------------------------------ safety

  /** `wait` returns from round r only after exactly the bodies of that round's plan have finished. */
  lemma WaitIsExact(rounds: seq<Round>, run: seq<Action>, s: State)
    requires Matched(rounds) && Exec(Init(rounds), run) == Some(s)
    ensures |s.log| <= |rounds|
    ensures forall r :: 0 <= r < |s.log| ==> s.log[r] == Bodies(rounds[r].plan)
    ensures s.main.Done? ==> |s.log| == |rounds|
  {
    RunInv(rounds, run);
  }

  /** No task of an earlier round ever increments the counter again, however late it runs. */
  lemma NoStaleIncrement(rounds: seq<Round>, run: seq<Action>, s: State, k: nat, chunk: nat)
    requires Matched(rounds) && Exec(Init(rounds), run) == Some(s) && k < |s.tasks| && s.tasks[k].round < s.round
    ensures Step(s, GoTask(k, chunk)).Some? ==> Step(s, GoTask(k, chunk)).value.counter == s.counter
    ensures !s.tasks[k].pc.Increment?
  {
    RunInv(rounds, run);
  }

  /** The counter never passes the target, and bodies finish before they are counted. */
  lemma CounterBounds(rounds: seq<Round>, run: seq<Action>, s: State)
    requires Matched(rounds) && Exec(Init(rounds), run) == Some(s) && InRound(s.main)
    ensures 0 <= s.counter <= s.bodies <= s.target
  {
    RunInv(rounds, run);
    FinishedAtMostOwes(s.tasks);
  }

  // ------------------------------------------------------------------ liveness

  /** If the main thread sleeps although the target is reached, a task of the current round is
      committed to notifying it. */
  lemma NoLostWakeup(rounds: seq<Round>, run: seq<Action>, s: State)
    requires Matched(rounds) && Exec(Init(rounds), run) == Some(s) && s.main.AsleepWait? && s.counter >= s.target
    ensures exists k :: Committed(s, k)
  {
    RunInv(rounds, run);
  }

  /** A task with something left to do can move unless it waits for the lock. */
  lemma TaskMoves(s: State, k: nat)
    requires k < |s.tasks| && !s.owner.ByMain?
    requires Owes(s.tasks[k]) > 0 || Holds(s.tasks[k].pc) || s.tasks[k].pc.Compare? || s.tasks[k].pc.WantLock?
    requires s.tasks[k].pc.WantLock? ==> s.owner.Free?
    ensures Step(s, GoTask(k, 1)).Some?
  {
  }

  /** In every reachable state before the end some thread can take an ordinary step. */
  lemma Progress(rounds: seq<Round>, s: State) returns (a: Action)
    requires Inv(rounds, s) && !s.main.Done?
    ensures !a.Wake? && Step(s, a).Some?
  {
    if s.owner.ByTask? {
      TaskMoves(s, s.owner.k);
      a := GoTask(s.owner.k, 1);
    } else if s.main.AsleepWait? {
      var k: nat;
      if s.counter >= s.target {
        k :| Committed(s, k);
      } else {
        k := SumWitness(Owes, s.tasks);
      }
      TaskMoves(s, k);
      a := GoTask(k, 1);
    } else {
      a := GoMain;
    }
  }

  // Weights of what is still to be executed; one task body accounts for ten steps.

  function PlanWeight(p: Plan): nat
    decreases p, 0
  {
    match p
    case Leaf(b) => 11 * b
    case Fork(ps) => PlansWeight(ps)
  }

  function PlansWeight(ps: seq<Plan>): nat
    decreases ps, 1
  {
    if ps == [] then 0 else 1 + PlanWeight(ps[0]) + PlansWeight(ps[1..])
  }

  function TaskWeight(t: Task): nat {
    match t.pc
    case Launching(ps) => PlansWeight(ps)
    case Splitting(b) => 11 * b
    case Body(left) => 10 * left
    case Increment(left) => 10 * left + 9
    case Compare(_, left) => 10 * left + 8
    case WantLock(left) => 10 * left + 7
    case Notify(left) => 10 * left + 6
    case Unlock(left) => 10 * left + 3
  }

  function RoundWeight(r: Round): nat {
    7 + PlansWeight(Roots(r.plan))
  }

  function MainWeight(main: MainPc): nat {
    match main
    case Idle => 1
    case Reset(p) => 6 + PlansWeight(Roots(p))
    case Launch(ps) => 5 + PlansWeight(ps)
    case LockWait => 4
    case CheckWait => 3
    case AsleepWait => 2
    case Done => 0
  }

  function Measure(s: State): nat {
    MainWeight(s.main) + Sum(RoundWeight, s.rounds) + Sum(TaskWeight, s.tasks)
  }

  lemma LighterTasks(s: State, s': State, k: nat)
    requires k < |s.tasks| == |s'.tasks| && s'.tasks == s.tasks[k := s'.tasks[k]] && s'.rounds == s.rounds
    requires MainWeight(s'.main) + TaskWeight(s'.tasks[k]) < MainWeight(s.main) + TaskWeight(s.tasks[k])
    ensures Measure(s') < Measure(s)
  {
    SumUpdate(TaskWeight, s.tasks, k, s'.tasks[k]);
  }

  lemma LighterWithChild(s: State, s': State, k: nat, child: Task)
    requires k < |s.tasks| < |s'.tasks| && s'.tasks == s.tasks[k := s'.tasks[k]] + [child]
    requires s'.main == s.main && s'.rounds == s.rounds
    requires TaskWeight(s'.tasks[k]) + TaskWeight(child) < TaskWeight(s.tasks[k])
    ensures Measure(s') < Measure(s)
  {
    SumUpdate(TaskWeight, s.tasks, k, s'.tasks[k]);
    SumAppend(TaskWeight, s.tasks[k := s'.tasks[k]], child);
  }

  lemma TaskStepMeasure(s: State, k: nat, chunk: nat, s': State)
    requires k < |s.tasks| && TaskStep(s, k, chunk) == Some(s')
    ensures Measure(s') < Measure(s)
  {
    if |s'.tasks| > |s.tasks| {
      Spawned(s, k, chunk, s');
      LighterWithChild(s, s', k, s'.tasks[|s.tasks|]);
    } else {
      Stayed(s, k, chunk, s');
      LighterTasks(s, s', k);
    }
  }

  lemma MainStepMeasure(s: State, s': State)
    requires MainStep(s) == Some(s')
    ensures Measure(s') < Measure(s)
  {
    if s.main.Launch? && s.main.pending != [] {
      var t := s'.tasks[|s.tasks|];
      SumAppend(TaskWeight, s.tasks, t);
      assert TaskWeight(t) == PlanWeight(s.main.pending[0]);
    }
  }

  lemma StepMeasure(s: State, a: Action, s': State)
    requires Step(s, a) == Some(s')
    ensures if a.Wake? then Measure(s') <= Measure(s) + 2 else Measure(s') < Measure(s)
  {
    match a
    case GoMain => MainStepMeasure(s, s');
    case GoTask(k, chunk) => TaskStepMeasure(s, k, chunk, s');
    case Wake =>
  }

  function Steps(run: seq<Action>): nat {
    Sum((a: Action) => if a.Wake? then 0 else 1, run)
  }

  function Wakes(run: seq<Action>): nat {
    Sum((a: Action) => if a.Wake? then 1 else 0, run)
  }

  /** Every run is bounded by the launch plans alone, up to two steps per spurious wake-up. */
  lemma {:induction false} RunBound(s: State, run: seq<Action>)
    requires Exec(s, run).Some?
    ensures Steps(run) + Measure(Exec(s, run).value) <= Measure(s) + 2 * Wakes(run)
    decreases |run|
  {
    if run != [] {
      var s' := Step(s, run[0]).value;
      StepMeasure(s, run[0], s');
      RunBound(s', run[1..]);
    }
  }

  /** A run that no thread can continue has completed every round. */
  lemma StuckOnlyWhenDone(rounds: seq<Round>, run: seq<Action>, s: State)
    requires Matched(rounds) && Exec(Init(rounds), run) == Some(s)
    requires forall a: Action :: !a.Wake? ==> Step(s, a).None?
    ensures s.main.Done? && |s.log| == |rounds|
  {
    RunInv(rounds, run);
    if !s.main.Done? {
      var a := Progress(rounds, s);
    }
  }

  // ------------------------------------------------------------------ the two benchmarks

  /** A round of intra_inter_benchmark. */
  function TreeRound(iterPow: nat, subIter: nat): Round {
    Round(Pow2(iterPow) * subIter, LaunchTree(0, iterPow, subIter))
  }

  /** A round of at_launch_benchmark. */
  function LoopRound(tasks: nat): Round {
    Round(tasks, LaunchLoop(tasks))
  }

  /** intra_inter_benchmark: the stored targets are right, and every completed round ran exactly
      2^iter_pow * sub_iter bodies. */
  lemma IntraInterRounds(iterPows: seq<nat>, subIter: nat, run: seq<Action>, s: State)
    requires Exec(Init(seq(|iterPows|, r requires 0 <= r < |iterPows| => TreeRound(iterPows[r], subIter))), run) == Some(s)
    ensures Matched(seq(|iterPows|, r requires 0 <= r < |iterPows| => TreeRound(iterPows[r], subIter)))
    ensures forall r :: 0 <= r < |s.log| ==> r < |iterPows| && s.log[r] == Pow2(iterPows[r]) * subIter
  {
    var rounds := seq(|iterPows|, r requires 0 <= r < |iterPows| => TreeRound(iterPows[r], subIter));
    forall r | 0 <= r < |rounds| ensures Bodies(rounds[r].plan) == Pow2(iterPows[r]) * subIter {
      LaunchTreeBodies(0, iterPows[r], subIter);
    }
    WaitIsExact(rounds, run, s);
  }

  /** at_launch_benchmark: the stored targets are right, and every completed round ran exactly the requested
      number of tasks. */
  lemma AtLaunchRounds(tasks: seq<nat>, run: seq<Action>, s: State)
    requires Exec(Init(seq(|tasks|, r requires 0 <= r < |tasks| => LoopRound(tasks[r]))), run) == Some(s)
    ensures Matched(seq(|tasks|, r requires 0 <= r < |tasks| => LoopRound(tasks[r])))
    ensures forall r :: 0 <= r < |s.log| ==> r < |tasks| && s.log[r] == tasks[r]
  {
    var rounds := seq(|tasks|, r requires 0 <= r < |tasks| => LoopRound(tasks[r]));
    forall r | 0 <= r < |rounds| ensures Bodies(rounds[r].plan) == tasks[r] {
      LaunchLoopBodies(tasks[r]);
    }
    WaitIsExact(rounds, run, s);
  }
}
