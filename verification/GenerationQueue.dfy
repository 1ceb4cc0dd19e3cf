/** generation_queue.cpp: a bounded queue with one worker, any number of submitters and stoppers.

    Every action below is one atomic step of one thread: a critical section, a read or write of the
    stop flag, or a move of the worker between them. Runs are all interleavings. The stop flag is
    written outside the mutex, so the worker's check and its pop are separate steps. */
module GenerationQueue {
  import opened Base

  /** A submitted callable. */
  type Task = nat

  /** Where the worker is. It holds the mutex in Holding and Checked. */
  datatype Worker =
    | Top                     // about to test the loop condition
    | Locking                 // about to (re)acquire the mutex and evaluate the wait predicate
    | Blocked                 // asleep on the condition variable
    | Holding                 // wait returned; about to test stop and emptiness
    | Checked                 // both tests passed; about to pop
    | Taken(task: Task)       // popped, mutex released, not called yet
    | Running(task: Task)
    | Exited
    | Terminated(task: Task)  // the task threw; an exception that leaves a thread ends the process

  datatype State = State(
    capacity: nat,
    tasks: seq<Task>,
    accepting: bool,
    stopRequested: bool,
    stopping: nat,            // stop() calls between their critical section and their stop request
    worker: Worker,
    signalled: bool,          // a notification reached the blocked worker
    accepted: seq<Task>,      // history: submissions that returned true
    started: seq<Task>,       // history: tasks called
    finished: nat)            // history: calls that returned

  datatype Action =
    | Submit(task: Task) | Close | RequestStop
    | TestStop | Wait | Wake | TestTasks | Pop | Call | Return | Raise

  predicate MutexHeld(s: State) {
    s.worker.Holding? || s.worker.Checked?
  }

  /** Another thread can take the mutex. */
  predicate CanEnter(s: State) {
    !MutexHeld(s) && !s.worker.Terminated?
  }

  predicate Enabled(s: State, a: Action) {
    match a
    case Submit(_) => CanEnter(s)
    case Close => CanEnter(s)
    case RequestStop => s.stopping > 0 && !s.worker.Terminated?
    case TestStop => s.worker.Top?
    case Wait => s.worker.Locking?
    case Wake => s.worker.Blocked?
    case TestTasks => s.worker.Holding?
    case Pop => s.worker.Checked? && s.tasks != []
    case Call => s.worker.Taken?
    case Return => s.worker.Running?
    case Raise => s.worker.Running?
  }

  predicate OfWorker(a: Action) {
    !a.Submit? && !a.Close? && !a.RequestStop?
  }

  predicate Admits(s: State) {
    s.accepting && |s.tasks| < s.capacity
  }

  function Apply(s: State, a: Action): State
    requires Enabled(s, a)
  {
    match a
    case Submit(t) =>
      if !Admits(s) then s
      else s.(tasks := s.tasks + [t], accepted := s.accepted + [t], signalled := s.signalled || s.worker.Blocked?)
    case Close => s.(accepting := false, stopping := s.stopping + 1)
    case RequestStop =>
      s.(stopRequested := true, stopping := s.stopping - 1, signalled := s.signalled || s.worker.Blocked?)
    case TestStop => s.(worker := if s.stopRequested then Exited else Locking)
    case Wait =>
      if s.stopRequested || s.tasks != [] || !s.accepting then s.(worker := Holding)
      else s.(worker := Blocked, signalled := false)
    case Wake => s.(worker := Locking)
    case TestTasks => s.(worker := if s.stopRequested || s.tasks == [] then Top else Checked)
    case Pop => s.(worker := Taken(s.tasks[0]), tasks := s.tasks[1..])
    case Call => s.(worker := Running(s.worker.task), started := s.started + [s.worker.task])
    case Return => s.(worker := Top, finished := s.finished + 1)
    case Raise => s.(worker := Terminated(s.worker.task))
  }

  function Init(capacity: nat): State {
    State(capacity, [], true, false, 0, Top, false, [], [], 0)
  }

  // ---------------------------------------------------------------- runs

  predicate Run(trace: seq<State>, actions: seq<Action>) {
    && |trace| == |actions| + 1
    && (forall i :: 0 <= i < |actions| ==> Enabled(trace[i], actions[i]) && trace[i + 1] == Apply(trace[i], actions[i]))
  }

  predicate Behavior(capacity: nat, trace: seq<State>, actions: seq<Action>) {
    Run(trace, actions) && capacity > 0 && trace[0] == Init(capacity)
  }

  /** The task popped but not called yet. */
  function InHand(w: Worker): seq<Task> {
    if w.Taken? then [w.task] else []
  }

  /** A task has been called and has not returned. */
  predicate Busy(w: Worker) {
    w.Running? || w.Terminated?
  }

  /** What every reachable state satisfies. */
  ghost predicate Inv(s: State) {
    && s.accepted == s.started + InHand(s.worker) + s.tasks
    && |s.started| == s.finished + (if Busy(s.worker) then 1 else 0)
    && (Busy(s.worker) ==> s.started[|s.started| - 1] == s.worker.task)
    && |s.tasks| <= s.capacity
    && (s.worker.Checked? ==> s.tasks != [])
    && (s.stopRequested || s.stopping > 0 ==> !s.accepting)
    && (!s.accepting ==> s.stopRequested || s.stopping > 0)
    && (s.worker.Exited? ==> s.stopRequested)
    && (s.worker.Blocked? && !s.signalled ==> s.tasks == [] && !s.stopRequested)
  }

  lemma {:induction false} StepKeepsInv(s: State, a: Action)
    requires Inv(s) && Enabled(s, a)
    ensures Inv(Apply(s, a)) && Apply(s, a).capacity == s.capacity
  {
    match a
    case Submit(t) => SubmitKeepsInv(s, t);
    case Pop => PopKeepsInv(s);
    case Call => CallKeepsInv(s);
    case _ =>
  }

  lemma {:induction false} SubmitKeepsInv(s: State, t: Task)
    requires Inv(s) && Enabled(s, Submit(t))
    ensures Inv(Apply(s, Submit(t)))
  {
    assert s.started + InHand(s.worker) + (s.tasks + [t]) == s.accepted + [t];
  }

  lemma {:induction false} PopKeepsInv(s: State)
    requires Inv(s) && Enabled(s, Pop)
    ensures Inv(Apply(s, Pop))
  {
    assert s.tasks == [s.tasks[0]] + s.tasks[1..];
    assert s.started + [s.tasks[0]] + s.tasks[1..] == s.accepted;
  }

  lemma {:induction false} CallKeepsInv(s: State)
    requires Inv(s) && Enabled(s, Call)
    ensures Inv(Apply(s, Call))
  {
    assert (s.started + [s.worker.task]) + [] + s.tasks == s.accepted;
  }

  lemma {:induction false} Reachable(capacity: nat, trace: seq<State>, actions: seq<Action>, i: nat)
    requires Behavior(capacity, trace, actions) && i < |trace|
    ensures Inv(trace[i]) && trace[i].capacity == capacity
    decreases i
  {
    if i > 0 {
      Reachable(capacity, trace, actions, i - 1);
      StepKeepsInv(trace[i - 1], actions[i - 1]);
    }
  }

  // ---------------------------------------------------------------- safety of every run

  /** In every reachable state of every interleaving: started tasks are a prefix of the accepted ones,
      in order; all but the last have returned and at most one runs; waiting tasks fit the capacity,
      and accepted but unfinished ones exceed it by at most one. */
  lemma {:induction false} BoundedAndInOrder(capacity: nat, trace: seq<State>, actions: seq<Action>, i: nat)
    requires Behavior(capacity, trace, actions) && i < |trace|
    ensures var s := trace[i];
            && s.started <= s.accepted
            && s.finished <= |s.started| <= s.finished + 1
            && (|s.started| == s.finished + 1 <==> Busy(s.worker))
            && |s.tasks| <= capacity
            && |s.accepted| - s.finished <= capacity + 1
  {
    Reachable(capacity, trace, actions, i);
  }

  /** A submission is accepted exactly when the queue is open and has room, and then it is the last to wait;
      otherwise nothing changes at all. */
  lemma {:induction false} AcceptedExactlyWithRoom(capacity: nat, trace: seq<State>, actions: seq<Action>, i: nat)
    requires Behavior(capacity, trace, actions) && i < |actions| && actions[i].Submit?
    ensures var s, s', t := trace[i], trace[i + 1], actions[i].task;
            if s.accepting && |s.tasks| < capacity
            then s'.tasks == s.tasks + [t] && s'.accepted == s.accepted + [t]
            else s' == s && (!s.accepting || |s.tasks| == capacity)
  {
    Reachable(capacity, trace, actions, i);
    assert trace[i + 1] == Apply(trace[i], actions[i]);
  }

  /** Nothing but a submission accepts a task, and nothing but the worker takes one from the queue. */
  lemma {:induction false} OnlySubmissionsAccept(capacity: nat, trace: seq<State>, actions: seq<Action>, i: nat)
    requires Behavior(capacity, trace, actions) && i < |actions| && !actions[i].Submit?
    ensures trace[i + 1].accepted == trace[i].accepted
    ensures trace[i + 1].tasks == if OfWorker(actions[i]) && trace[i].worker.Checked? then trace[i].tasks[1..]
                                  else trace[i].tasks
  {
    Reachable(capacity, trace, actions, i);
    assert trace[i + 1] == Apply(trace[i], actions[i]);
  }

  /** Every capacity can be used up: some run has as many tasks waiting as the capacity allows, in the order
      they were submitted. */
  lemma {:induction false} QueueFills(capacity: nat, waiting: seq<Task>)
    returns (trace: seq<State>, actions: seq<Action>)
    requires capacity > 0 && |waiting| <= capacity
    ensures Behavior(capacity, trace, actions) && |trace| == |waiting| + 1
    ensures trace[|waiting|] == Init(capacity).(tasks := waiting, accepted := waiting)
    decreases |waiting|
  {
    if waiting == [] {
      trace, actions := [Init(capacity)], [];
    } else {
      var n := |waiting| - 1;
      trace, actions := QueueFills(capacity, waiting[..n]);
      trace, actions := Then(trace, actions, Submit(waiting[n]));
      assert waiting[..n] + [waiting[n]] == waiting;
    }
  }

  /** Nothing is lost: an accepted task has been called, is in the worker's hand, or still waits, in
      that order; and after the worker's exit nothing is in hand or running. */
  lemma {:induction false} AcceptedAreAccountedFor(capacity: nat, trace: seq<State>, actions: seq<Action>, i: nat)
    requires Behavior(capacity, trace, actions) && i < |trace|
    ensures trace[i].accepted == trace[i].started + InHand(trace[i].worker) + trace[i].tasks
    ensures trace[i].worker.Exited? ==>
              |trace[i].started| == trace[i].finished && trace[i].accepted == trace[i].started + trace[i].tasks
  {
    Reachable(capacity, trace, actions, i);
  }

  /** Once `accepting` is false nothing is accepted any more, and it stays false. */
  lemma {:induction false} NothingAcceptedAfterClose(trace: seq<State>, actions: seq<Action>, i: nat, j: nat)
    requires Run(trace, actions) && i <= j < |trace| && !trace[i].accepting
    ensures trace[j].accepted == trace[i].accepted && !trace[j].accepting
    decreases j
  {
    if i < j {
      NothingAcceptedAfterClose(trace, actions, i, j - 1);
      assert trace[j] == Apply(trace[j - 1], actions[j - 1]);
    }
  }

  /** A call of stop ends acceptance: after its critical section nothing is accepted any more. */
  lemma {:induction false} StopEndsAcceptance(trace: seq<State>, actions: seq<Action>, i: nat, j: nat)
    requires Run(trace, actions) && i < j < |trace| && actions[i].Close?
    ensures !trace[j].accepting && trace[j].accepted == trace[i].accepted
  {
    assert trace[i + 1] == Apply(trace[i], actions[i]);
    NothingAcceptedAfterClose(trace, actions, i + 1, j);
  }

  /** The worker has passed its last test of the stop flag. */
  predicate Committed(w: Worker) {
    w.Checked? || w.Taken?
  }

  function StartsDue(s: State): nat {
    |s.started| + if Committed(s.worker) then 1 else 0
  }

  lemma {:induction false} NoNewStartsDue(trace: seq<State>, actions: seq<Action>, i: nat, j: nat)
    requires Run(trace, actions) && i <= j < |trace| && trace[i].stopRequested
    ensures trace[j].stopRequested && StartsDue(trace[j]) <= StartsDue(trace[i])
    decreases j
  {
    if i < j {
      NoNewStartsDue(trace, actions, i, j - 1);
      assert trace[j] == Apply(trace[j - 1], actions[j - 1]);
    }
  }

  /** After the stop request at most one more task is called, and none unless the worker had already
      passed its test when the request came. */
  lemma {:induction false} AtMostOneStartAfterStop(trace: seq<State>, actions: seq<Action>, i: nat, j: nat)
    requires Run(trace, actions) && i <= j < |trace| && trace[i].stopRequested
    ensures |trace[j].started| <= |trace[i].started| + 1
    ensures !Committed(trace[i].worker) ==> trace[j].started == trace[i].started
  {
    NoNewStartsDue(trace, actions, i, j);
    StartedGrows(trace, actions, i, j);
  }

  /** The same from the stop request itself: it sets the flag, and from then on at most one task is called. */
  lemma {:induction false} StopRequestEndsStarts(trace: seq<State>, actions: seq<Action>, i: nat, j: nat)
    requires Run(trace, actions) && i < j < |trace| && actions[i].RequestStop?
    ensures trace[i + 1].stopRequested && |trace[j].started| <= |trace[i].started| + 1
    ensures WorkerSteps(actions[i + 1..j]) <= 4
  {
    RequestSetsFlag(trace[i], actions[i]);
    AtMostOneStartAfterStop(trace, actions, i + 1, j);
    StopsWithinFourSteps(trace, actions, i + 1, j);
  }

  lemma {:induction false} RequestSetsFlag(s: State, a: Action)
    requires Enabled(s, a) && a.RequestStop?
    ensures Apply(s, a).stopRequested && Apply(s, a).started == s.started
  {
  }

  lemma {:induction false} StartedGrows(trace: seq<State>, actions: seq<Action>, i: nat, j: nat)
    requires Run(trace, actions) && i <= j < |trace|
    ensures trace[i].started <= trace[j].started && trace[i].accepted <= trace[j].accepted
    decreases j
  {
    if i < j {
      StartedGrows(trace, actions, i, j - 1);
      StepAt(trace, actions, j - 1);
      Longer(trace[i].started, trace[j - 1].started, trace[j].started);
      Longer(trace[i].accepted, trace[j - 1].accepted, trace[j].accepted);
    }
  }

  lemma {:induction false} StepAt(trace: seq<State>, actions: seq<Action>, i: nat)
    requires Run(trace, actions) && i < |actions|
    ensures trace[i].started <= trace[i + 1].started && trace[i].accepted <= trace[i + 1].accepted
  {
    StepGrows(trace[i], actions[i]);
  }

  lemma {:induction false} StepGrows(s: State, a: Action)
    requires Enabled(s, a)
    ensures s.started <= Apply(s, a).started && s.accepted <= Apply(s, a).accepted
  {
  }

  /** The one late start is possible: a task called after the stop request. */
  lemma {:induction false} LateStartExample() returns (trace: seq<State>, actions: seq<Action>, i: nat, j: nat)
    ensures Behavior(1, trace, actions) && i < j < |trace|
    ensures trace[i].stopRequested && |trace[j].started| == |trace[i].started| + 1
  {
    trace, actions := StopAfterTest();
    i := |trace| - 1;
    var stopped := trace[i];
    trace, actions := Then(trace, actions, Pop);
    trace, actions := Then(trace, actions, Call);
    j := |trace| - 1;
    assert trace[i] == stopped;
  }

  /** The stop request comes between the worker's test and its pop. */
  lemma {:induction false} StopAfterTest() returns (trace: seq<State>, actions: seq<Action>)
    ensures Behavior(1, trace, actions)
    ensures var s := trace[|trace| - 1]; s.stopRequested && s.worker.Checked? && s.tasks != []
  {
    trace, actions := [Init(1)], [];
    trace, actions := Then(trace, actions, Submit(7));
    trace, actions := Then(trace, actions, TestStop);
    trace, actions := Then(trace, actions, Close);
    trace, actions := Then(trace, actions, Wait);
    trace, actions := Then(trace, actions, TestTasks);
    trace, actions := Then(trace, actions, RequestStop);
  }

  /** A run goes on by any enabled action. */
  lemma {:induction false} Then(trace: seq<State>, actions: seq<Action>, a: Action)
    returns (trace': seq<State>, actions': seq<Action>)
    requires Run(trace, actions) && Enabled(trace[|trace| - 1], a)
    ensures Run(trace', actions') && trace' == trace + [Apply(trace[|trace| - 1], a)] && actions' == actions + [a]
  {
    trace', actions' := trace + [Apply(trace[|trace| - 1], a)], actions + [a];
    forall k | 0 <= k < |actions'|
      ensures Enabled(trace'[k], actions'[k]) && trace'[k + 1] == Apply(trace'[k], actions'[k])
    {
      assert trace'[k] == trace[k];
      if k < |actions| { assert actions'[k] == actions[k] && trace'[k + 1] == trace[k + 1]; }
    }
  }

  // ---------------------------------------------------------------- progress

  function WorkerSteps(actions: seq<Action>): nat {
    if actions == [] then 0
    else WorkerSteps(actions[..|actions| - 1]) + if OfWorker(actions[|actions| - 1]) then 1 else 0
  }

  lemma {:induction false} OneMoreAction(actions: seq<Action>, i: nat, j: nat)
    requires i < j <= |actions|
    ensures WorkerSteps(actions[i..j]) == WorkerSteps(actions[i..j - 1]) + if OfWorker(actions[j - 1]) then 1 else 0
  {
    assert actions[i..j][..j - 1 - i] == actions[i..j - 1];
  }

  /** Steps the worker can still take once the stop is requested. */
  function StepsToExit(w: Worker): nat {
    match w
    case Exited => 0
    case Terminated(_) => 0
    case Top => 1
    case Holding => 2
    case Running(_) => 2
    case Locking => 3
    case Taken(_) => 3
    case Blocked => 4
    case Checked => 4
  }

  /** The worker is never stuck before its exit: it always has a step, and the only state in which
      that step is not its own choice, sleep, has a notification pending whenever there is a task to
      run or a stop to obey. A stop() call still between its two steps is the one exception. */
  lemma {:induction false} NoLostWakeup(capacity: nat, trace: seq<State>, actions: seq<Action>, i: nat)
    requires Behavior(capacity, trace, actions) && i < |trace|
    ensures var s := trace[i];
            && (!s.worker.Exited? && !s.worker.Terminated? ==> exists a :: OfWorker(a) && Enabled(s, a))
            && (s.worker.Blocked? && (s.tasks != [] || s.stopRequested || (!s.accepting && s.stopping == 0)) ==>
                s.signalled)
  {
    Reachable(capacity, trace, actions, i);
    var s := trace[i];
    var a := match s.worker
      case Top => TestStop
      case Locking => Wait
      case Blocked => Wake
      case Holding => TestTasks
      case Checked => Pop
      case Taken(_) => Call
      case _ => Return;
    assert OfWorker(a) && (!s.worker.Exited? && !s.worker.Terminated? ==> Enabled(s, a));
  }

  /** After the stop request the worker takes at most four more steps, and when it has none left it
      has exited, or a task that threw has ended the process. */
  lemma {:induction false} StopsWithinFourSteps(trace: seq<State>, actions: seq<Action>, i: nat, j: nat)
    requires Run(trace, actions) && i <= j < |trace| && trace[i].stopRequested
    ensures WorkerSteps(actions[i..j]) + StepsToExit(trace[j].worker) <= StepsToExit(trace[i].worker) <= 4
    ensures WorkerSteps(actions[i..j]) == 4 ==> trace[j].worker.Exited? || trace[j].worker.Terminated?
    decreases j
  {
    if i < j {
      StopsWithinFourSteps(trace, actions, i, j - 1);
      NoNewStartsDue(trace, actions, i, j - 1);
      StepTowardsExit(trace[j - 1], actions[j - 1]);
      OneMoreAction(actions, i, j);
    }
  }

  lemma {:induction false} StepTowardsExit(s: State, a: Action)
    requires Enabled(s, a) && s.stopRequested
    ensures StepsToExit(Apply(s, a).worker) + (if OfWorker(a) then 1 else 0) <= StepsToExit(s.worker)
  {
  }

  /** With nothing to do the worker does not spin: from the top of its loop its next two steps, if nobody else
      acts between them, put it to sleep. */
  lemma {:induction false} IdleWorkerSleeps(trace: seq<State>, actions: seq<Action>, i: nat)
    requires Run(trace, actions) && i + 1 < |actions| && OfWorker(actions[i]) && OfWorker(actions[i + 1])
    requires trace[i].worker.Top? && trace[i].tasks == [] && trace[i].accepting && !trace[i].stopRequested
    ensures trace[i + 2].worker.Blocked? && trace[i + 2].tasks == []
  {
    assert trace[i + 1] == Apply(trace[i], actions[i]);
    assert trace[i + 1 + 1] == Apply(trace[i + 1], actions[i + 1]);
  }

  /** What a call of a task does: it is the task that waited first, and its return is counted. */
  lemma {:induction false} CallsInOrder(capacity: nat, trace: seq<State>, actions: seq<Action>, i: nat)
    requires Behavior(capacity, trace, actions) && i < |actions|
    ensures actions[i].Call? ==>
              && |trace[i].started| < |trace[i].accepted|
              && trace[i + 1].started == trace[i].started + [trace[i].accepted[|trace[i].started|]]
    ensures actions[i].Return? ==> trace[i + 1].finished == trace[i].finished + 1 == |trace[i].started|
    ensures !actions[i].Call? ==> trace[i + 1].started == trace[i].started
  {
    Reachable(capacity, trace, actions, i);
    assert trace[i + 1] == Apply(trace[i], actions[i]);
  }

  /** Steps until the worker calls a task, while one waits and no stop is requested. */
  function StepsToCall(w: Worker): nat {
    match w
    case Taken(_) => 1
    case Checked => 2
    case Holding => 3
    case Locking => 4
    case Top => 5
    case Blocked => 5
    case Running(_) => 6
    case Terminated(_) => 5
    case Exited => 0
  }

  predicate Pending(s: State) {
    s.tasks != [] || s.worker.Taken?
  }

  /** The worker has come `steps` nearer to calling a task without calling one. */
  predicate Nearer(before: State, after: State, steps: nat) {
    && after.started == before.started
    && Pending(after)
    && StepsToCall(after.worker) + steps <= StepsToCall(before.worker)
  }

  lemma {:induction false} StepTowardsCall(s: State, a: Action)
    requires Inv(s) && Enabled(s, a) && Pending(s) && !Apply(s, a).stopRequested
    ensures |Apply(s, a).started| > |s.started| || Nearer(s, Apply(s, a), if OfWorker(a) then 1 else 0)
  {
  }

  lemma {:induction false} CalledOrNearer(capacity: nat, trace: seq<State>, actions: seq<Action>, i: nat, j: nat)
    requires Behavior(capacity, trace, actions) && i <= j < |trace|
    requires Pending(trace[i]) && !trace[j].stopRequested
    ensures |trace[j].started| > |trace[i].started| || Nearer(trace[i], trace[j], WorkerSteps(actions[i..j]))
    decreases j
  {
    if i < j {
      assert Enabled(trace[j - 1], actions[j - 1]) && trace[j] == Apply(trace[j - 1], actions[j - 1]);
      CalledOrNearer(capacity, trace, actions, i, j - 1);
      Reachable(capacity, trace, actions, j - 1);
      OneMoreAction(actions, i, j);
      CalledOrNearerStep(trace[i], trace[j - 1], actions[j - 1], WorkerSteps(actions[i..j - 1]));
    }
  }

  lemma {:induction false} CalledOrNearerStep(before: State, s: State, a: Action, steps: nat)
    requires Inv(s) && Enabled(s, a) && !Apply(s, a).stopRequested
    requires |s.started| > |before.started| || Nearer(before, s, steps)
    ensures |Apply(s, a).started| > |before.started|
            || Nearer(before, Apply(s, a), steps + if OfWorker(a) then 1 else 0)
  {
    if Nearer(before, s, steps) {
      StepTowardsCall(s, a);
    } else {
      StepGrows(s, a);
    }
  }

  /** While a task waits and no stop is requested, six worker steps always call a task, whatever the
      other threads do in between. */
  lemma {:induction false} WaitingTaskGetsCalled(capacity: nat, trace: seq<State>, actions: seq<Action>, i: nat, j: nat)
    requires Behavior(capacity, trace, actions) && i <= j < |trace|
    requires Pending(trace[i]) && !trace[j].stopRequested
    requires WorkerSteps(actions[i..j]) >= 6
    ensures |trace[j].started| > |trace[i].started|
  {
    CalledOrNearer(capacity, trace, actions, i, j);
    Reachable(capacity, trace, actions, j);
  }

  // ---------------------------------------------------------------- the object

  class Queue {
    const capacity: nat
    var tasks: seq<Task>
    var accepting: bool
    var stopRequested: bool
    var worker: Worker
    ghost var stopping: nat
    ghost var signalled: bool
    ghost var accepted: seq<Task>
    ghost var started: seq<Task>
    ghost var finished: nat

    ghost function Abstract(): State
      reads this
    {
      State(capacity, tasks, accepting, stopRequested, stopping, worker, signalled, accepted, started, finished)
    }

    ghost predicate Valid()
      reads this
    {
      capacity > 0 && Inv(Abstract())
    }

    constructor (capacity: nat)
      requires capacity > 0
      ensures Valid() && Abstract() == Init(capacity)
    {
      this.capacity := capacity;
      tasks, accepting, stopRequested, worker := [], true, false, Top;
      stopping, signalled, accepted, started, finished := 0, false, [], [], 0;
    }

    static method Create(capacity: nat) returns (r: Outcome<Queue>)
      ensures r.Threw? <==> capacity == 0
      ensures r.Threw? ==> r.error == InvalidArgument
      ensures r.Returned? ==> fresh(r.value) && r.value.Valid() && r.value.Abstract() == Init(capacity)
    {
      if capacity == 0 {
        return Threw(InvalidArgument);
      }
      var queue := new Queue(capacity);
      r := Returned(queue);
    }

    /** `task` is None for an empty callable. */
    method TrySubmit(task: Option<Task>) returns (r: Outcome<bool>)
      requires Valid() && CanEnter(Abstract())
      modifies this
      ensures Valid()
      ensures task.None? ==> r == Threw(InvalidArgument) && Abstract() == old(Abstract())
      ensures task.Some? ==> Abstract() == Apply(old(Abstract()), Submit(task.value))
      ensures task.Some? ==> r == Returned(old(Admits(Abstract())))
      ensures r == Returned(true) <==> accepted != old(accepted)
      ensures r == Returned(true) <==> task.Some? && old(accepting) && old(|tasks|) < capacity
      ensures if r == Returned(true) then tasks == old(tasks) + [task.value] && accepted == old(accepted) + [task.value]
              else tasks == old(tasks) && accepted == old(accepted)
    {
      if task.None? {
        return Threw(InvalidArgument);
      }
      StepKeepsInv(Abstract(), Submit(task.value));
      if !accepting || |tasks| >= capacity {
        return Returned(false);
      }
      tasks, accepted := tasks + [task.value], accepted + [task.value];
      signalled := signalled || worker.Blocked?;
      r := Returned(true);
    }

    method Depth() returns (depth: nat)
      requires Valid() && CanEnter(Abstract())
      ensures depth == |tasks| <= capacity
    {
      depth := |tasks|;
    }

    /** The critical section of stop(). */
    method CloseAccepting()
      requires Valid() && CanEnter(Abstract())
      modifies this
      ensures Valid() && Abstract() == Apply(old(Abstract()), Close)
    {
      accepting, stopping := false, stopping + 1;
    }

    /** The rest of stop(): the stop request and the notification, outside the mutex. */
    method SetStop()
      requires Valid() && stopping > 0 && !worker.Terminated?
      modifies this
      ensures Valid() && Abstract() == Apply(old(Abstract()), RequestStop)
    {
      stopRequested, stopping := true, stopping - 1;
      signalled := signalled || worker.Blocked?;
    }

    /** A worker step that looks for a task. */
    method SeekStep() returns (ghost a: Action)
      requires Valid() && (worker.Top? || worker.Locking? || worker.Blocked? || worker.Holding?)
      modifies this
      ensures Valid() && OfWorker(a) && old(Enabled(Abstract(), a))
      ensures Abstract() == Apply(old(Abstract()), a)
    {
      match worker {
        case Top =>
          a := TestStop;
          StepKeepsInv(Abstract(), a);
          worker := if stopRequested then Exited else Locking;
        case Locking =>
          a := Wait;
          StepKeepsInv(Abstract(), a);
          if stopRequested || tasks != [] || !accepting {
            worker := Holding;
          } else {
            worker, signalled := Blocked, false;
          }
        case Blocked =>
          a := Wake;
          worker := Locking;
        case Holding =>
          a := TestTasks;
          worker := if stopRequested || tasks == [] then Top else Checked;
      }
    }

    /** A worker step that takes and runs a task; the task's own work lies between Call and Return, or
        Raise if it throws. */
    method TaskStep(throws: bool) returns (ghost a: Action)
      requires Valid() && (worker.Checked? || worker.Taken? || worker.Running?)
      modifies this
      ensures Valid() && OfWorker(a) && old(Enabled(Abstract(), a))
      ensures Abstract() == Apply(old(Abstract()), a)
    {
      match worker {
        case Checked =>
          a := Pop;
          StepKeepsInv(Abstract(), a);
          worker, tasks := Taken(tasks[0]), tasks[1..];
        case Taken(task) =>
          a := Call;
          StepKeepsInv(Abstract(), a);
          worker, started := Running(task), started + [task];
        case Running(task) =>
          if throws {
            a := Raise;
            worker := Terminated(task);
          } else {
            a := Return;
            worker, finished := Top, finished + 1;
          }
      }
    }
  }
}
