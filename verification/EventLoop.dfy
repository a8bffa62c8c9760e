/**
 * The task queue and the eventfd of net/EventLoop.cpp, as seen by the loop thread and by any number of
 * other threads.
 */
module EventLoop {
  import opened Sequences

  /** An eventfd counter cannot go beyond this; a write that would take it further fails. */
  const EVENTFD_MAX := 0xFFFF_FFFF_FFFF_FFFE

  /** Where the loop thread is. */
  datatype Pc = Idle | Top | Timers | Polling | Handling | Swapping | Tasks | Frame | Exited

  /** Who called queueInLoop: another thread, or the loop thread at the given place. */
  datatype Origin = Foreign | Own(at: Pc)

  /**
   * A task is named by its position in `history`, the order of the push_backs. `open` holds the calls of
   * queueInLoop that have pushed and not returned; `busy` says that one of them is the loop thread's.
   */
  datatype State = State(pc: Pc, doing: bool, quit: bool, ownQuit: bool, quitting: nat, counter: nat,
                         pending: seq<nat>, batch: seq<nat>, executed: seq<nat>,
                         history: seq<Origin>, open: set<nat>, busy: bool)

  const START := State(Idle, false, false, false, 0, 0, [], [], [], [], {}, false)

  /** The atomic steps. `Return` is the rest of queueInLoop behind the critical section. */
  datatype Action =
    | Begin | CheckQuit | TimersDone | PollReturns | HandleRead | HandlingDone
    | Swap | RunTask | TasksDone | FrameDone
    | ForeignPush | OwnPush | Return(task: nat)
    | ForeignQuit | ForeignQuitWakes | OwnQuit

  function Wake(s: State): State {
    s.(counter := if s.counter < EVENTFD_MAX then s.counter + 1 else s.counter)
  }

  function Push(s: State, origin: Origin): State {
    var task := |s.history|;
    s.(history := s.history + [origin], pending := s.pending + [task], open := s.open + {task},
       busy := s.busy || origin.Own?)
  }

  /** The places where the loop thread runs callbacks. */
  predicate RunsUserCode(pc: Pc) {
    pc.Timers? || pc.Handling? || pc.Tasks? || pc.Frame?
  }

  function Advance(s: State, from: Pc, to: Pc): State {
    if s.pc == from && !s.busy then s.(pc := to) else s
  }

  /** A step that is not possible changes nothing. */
  function Apply(s: State, a: Action): State {
    match a
    case Begin => if s.pc.Idle? then s.(pc := Top, quit := false, ownQuit := false) else s
    case CheckQuit => if s.quit then Advance(s, Top, Exited) else Advance(s, Top, Timers)
    case TimersDone => Advance(s, Timers, Polling)
    case PollReturns => Advance(s, Polling, Handling)
    case HandleRead => if s.pc.Handling? && !s.busy then s.(counter := 0) else s
    case HandlingDone =>
      if s.pc.Handling? && !s.busy then s.(pc := Swapping, doing := true) else s
    case Swap => if s.pc.Swapping? then s.(pc := Tasks, batch := s.pending, pending := []) else s
    case RunTask =>
      if s.pc.Tasks? && !s.busy && s.batch != []
      then s.(executed := s.executed + [s.batch[0]], batch := s.batch[1..])
      else s
    case TasksDone =>
      if s.pc.Tasks? && !s.busy && s.batch == [] then s.(pc := Frame, doing := false) else s
    case FrameDone => Advance(s, Frame, Top)
    case ForeignPush => Push(s, Foreign)
    case OwnPush => if RunsUserCode(s.pc) && !s.busy then Push(s, Own(s.pc)) else s
    case Return(task) =>
      if task !in s.open || task >= |s.history| then s
      else
        var own := s.history[task].Own?;
        var closed := s.(open := s.open - {task}, busy := s.busy && !own);
        if !own || s.doing then Wake(closed) else closed
    case ForeignQuit => s.(quit := true, quitting := s.quitting + 1)
    case ForeignQuitWakes => if s.quitting > 0 then Wake(s).(quitting := s.quitting - 1) else s
    case OwnQuit => if RunsUserCode(s.pc) && !s.busy then s.(quit := true, ownQuit := true) else s
  }

  function Run(s: State, actions: seq<Action>): State
    decreases |actions|
  {
    if actions == [] then s else Run(Apply(s, actions[0]), actions[1..])
  }

  function Iota(n: nat): (s: seq<nat>)
    ensures |s| == n && forall i :: 0 <= i < n ==> s[i] == i
  {
    if n == 0 then [] else Iota(n - 1) + [n - 1]
  }

  // ---------- The invariant ----------

  /** Executed, still to do in this batch, and pending: together the enqueue history, in its order. */
  predicate Fifo(s: State) {
    s.executed + s.batch + s.pending == Iota(|s.history|)
  }

  predicate Shape(s: State) {
    && (s.batch != [] ==> s.pc.Tasks?)
    && (s.doing <==> s.pc.Swapping? || s.pc.Tasks?)
    && (forall i :: i in s.open ==> i < |s.history|)
    && (s.busy ==> RunsUserCode(s.pc))
    && (forall i :: i in s.open && s.history[i].Own? ==> s.busy && s.history[i].at == s.pc)
    && (forall i, j :: i in s.open && j in s.open && s.history[i].Own? && s.history[j].Own? ==> i == j)
  }

  predicate OriginsKnown(s: State) {
    forall i :: 0 <= i < |s.history| && s.history[i].Own? ==> RunsUserCode(s.history[i].at)
  }

  /** The swap lies ahead of the next poll. */
  predicate SwapAhead(pc: Pc) {
    pc.Handling? || pc.Swapping?
  }

  /** The task was pushed by another thread or by a task, and the call has returned. */
  predicate Owed(s: State, i: nat) {
    i < |s.history| && i !in s.open && (s.history[i].Foreign? || s.history[i].at.Tasks?)
  }

  predicate Signalled(s: State) {
    forall i :: i in s.pending && Owed(s, i) ==> s.counter > 0 || SwapAhead(s.pc)
  }

  /** What event handlers push is swapped out before the next poll. */
  predicate HandlersServed(s: State) {
    forall i :: i in s.pending && i < |s.history| && s.history[i] == Own(Handling) ==> SwapAhead(s.pc)
  }

  predicate QuitSignalled(s: State) {
    (s.pc.Timers? || s.pc.Polling?) && s.quit && !s.ownQuit && s.quitting == 0 ==> s.counter > 0
  }

  predicate Inv(s: State) {
    Fifo(s) && Shape(s) && OriginsKnown(s) && Signalled(s) && HandlersServed(s) && QuitSignalled(s)
  }

  /** Steps that leave the queue alone. */
  predicate Control(a: Action) {
    !a.Swap? && !a.RunTask? && !a.ForeignPush? && !a.OwnPush? && !a.Return?
  }

  lemma ControlStep(s: State, a: Action)
    requires Control(a)
    ensures var t := Apply(s, a);
            && t.executed == s.executed && t.batch == s.batch && t.pending == s.pending
            && t.history == s.history && t.open == s.open && t.busy == s.busy
  {
  }

  lemma FifoStep(s: State, a: Action)
    requires Inv(s)
    ensures Fifo(Apply(s, a))
  {
    match a {
      case Swap => Regroup(s.executed, s.pending);
      case RunTask =>
        if s.batch != [] {
          MoveOne(s.executed, s.batch, s.pending);
        }
      case ForeignPush => PushFifo(s, Foreign);
      case OwnPush => PushFifo(s, Own(s.pc));
      case Return(task) =>
      case _ => ControlStep(s, a);
    }
  }

  lemma Regroup(a: seq<nat>, b: seq<nat>)
    ensures a + b + [] == a + [] + b
  {
  }

  lemma MoveOne(a: seq<nat>, b: seq<nat>, c: seq<nat>)
    requires b != []
    ensures a + [b[0]] + b[1..] + c == a + b + c
  {
  }

  lemma PushFifo(s: State, origin: Origin)
    requires Fifo(s)
    ensures Fifo(Push(s, origin))
  {
    var task := |s.history|;
    assert s.executed + s.batch + (s.pending + [task]) == s.executed + s.batch + s.pending + [task];
  }

  lemma PendingKnown(s: State, i: nat)
    requires Fifo(s) && i in s.pending
    ensures i < |s.history|
  {
    var j :| 0 <= j < |s.pending| && s.pending[j] == i;
    assert (s.executed + s.batch + s.pending)[|s.executed| + |s.batch| + j] == i;
  }

  /** What the wakeup counter and the place of the loop thread owe to task `i`. */
  predicate Served(s: State, i: nat) {
    i < |s.history| ==>
      && (Owed(s, i) ==> s.counter > 0 || SwapAhead(s.pc))
      && (s.history[i] == Own(Handling) ==> SwapAhead(s.pc))
  }

  lemma ControlServes(s: State, a: Action, i: nat)
    requires Served(s, i) && Control(a) && i in s.pending
    requires s.batch != [] ==> s.pc.Tasks?
    ensures Served(Apply(s, a), i)
  {
    ControlStep(s, a);
  }

  lemma PushServes(s: State, origin: Origin, i: nat)
    requires Served(s, i) && i < |s.history|
    ensures Served(Push(s, origin), i)
  {
    assert Push(s, origin).history[i] == s.history[i];
  }

  /** The rest of queueInLoop wakes the loop up for the task that becomes owed. */
  lemma ReturnServes(s: State, task: nat, i: nat)
    requires Inv(s) && Served(s, i) && i < |s.history|
    ensures Served(Apply(s, Return(task)), i)
  {
  }

  /** A task that was waiting before the step, and still is. */
  lemma SignalKept(s: State, a: Action, i: nat)
    requires Inv(s) && i in s.pending && i in Apply(s, a).pending
    ensures Served(Apply(s, a), i)
  {
    PendingKnown(s, i);
    assert Served(s, i);
    match a {
      case Swap =>
      case RunTask =>
      case ForeignPush => PushServes(s, Foreign, i);
      case OwnPush => PushServes(s, Own(s.pc), i);
      case Return(task) => ReturnServes(s, task, i);
      case _ => ControlServes(s, a, i);
    }
  }

  lemma SignalStep(s: State, a: Action)
    requires Inv(s)
    ensures Signalled(Apply(s, a)) && HandlersServed(Apply(s, a))
  {
    var t := Apply(s, a);
    forall i | i in t.pending && i < |t.history| && (Owed(t, i) || t.history[i] == Own(Handling))
      ensures if Owed(t, i) then t.counter > 0 || SwapAhead(t.pc) else SwapAhead(t.pc)
    {
      if i in s.pending {
        SignalKept(s, a, i);
      } else {
        assert i in t.open && t.pc == s.pc;
      }
    }
  }

  lemma ShapeStep(s: State, a: Action)
    requires Inv(s)
    ensures Shape(Apply(s, a)) && OriginsKnown(Apply(s, a))
  {
    match a {
      case ForeignPush => PushShape(s, Foreign);
      case OwnPush => if RunsUserCode(s.pc) && !s.busy { PushShape(s, Own(s.pc)); }
      case Return(task) => ReturnShape(s, task);
      case Swap =>
      case RunTask =>
      case _ => ControlShape(s, a);
    }
  }

  lemma ControlShape(s: State, a: Action)
    requires Shape(s) && OriginsKnown(s) && Control(a)
    ensures Shape(Apply(s, a)) && OriginsKnown(Apply(s, a))
  {
    ControlStep(s, a);
  }

  lemma ReturnShape(s: State, task: nat)
    requires Shape(s) && OriginsKnown(s)
    ensures Shape(Apply(s, Return(task))) && OriginsKnown(Apply(s, Return(task)))
  {
  }

  lemma PushShape(s: State, origin: Origin)
    requires Shape(s) && OriginsKnown(s)
    requires origin.Own? ==> RunsUserCode(s.pc) && !s.busy && origin.at == s.pc
    ensures Shape(Push(s, origin)) && OriginsKnown(Push(s, origin))
  {
    var t := Push(s, origin);
    assert forall i :: 0 <= i < |s.history| ==> t.history[i] == s.history[i];
  }

  lemma StepKeepsInv(s: State, a: Action)
    requires Inv(s)
    ensures Inv(Apply(s, a))
  {
    FifoStep(s, a);
    ShapeStep(s, a);
    SignalStep(s, a);
  }

  lemma {:induction false} RunKeepsInv(s: State, actions: seq<Action>)
    requires Inv(s)
    ensures Inv(Run(s, actions))
    decreases |actions|
  {
    if actions != [] {
      StepKeepsInv(s, actions[0]);
      RunKeepsInv(Apply(s, actions[0]), actions[1..]);
    }
  }

  // ---------- The results ----------

  lemma FrontOfIota(front: seq<nat>, middle: seq<nat>, last: seq<nat>, n: nat)
    requires front + middle + last == Iota(n)
    ensures |front| <= n && forall k :: 0 <= k < |front| ==> front[k] == k
  {
    assert forall k :: 0 <= k < |front| ==> front[k] == (front + middle + last)[k];
  }

  /** Exactly once and first in, first out: the k-th task executed is the k-th task enqueued. */
  lemma ExactlyOnceInOrder(actions: seq<Action>)
    ensures var s := Run(START, actions);
            && s.executed + s.batch + s.pending == Iota(|s.history|)
            && |s.executed| <= |s.history|
            && forall k :: 0 <= k < |s.executed| ==> s.executed[k] == k
  {
    RunKeepsInv(START, actions);
    var s := Run(START, actions);
    FrontOfIota(s.executed, s.batch, s.pending, |s.history|);
  }

  /**
   * No lost wakeup: when the loop is about to poll with the counter at zero, every pending task is one
   * whose queueInLoop has not returned yet, or one that the loop thread itself queued from a timer or
   * from the frame callback.
   */
  lemma NoLostWakeup(actions: seq<Action>, i: nat)
    requires var s := Run(START, actions); s.pc.Polling? && s.counter == 0 && i in s.pending
    ensures var s := Run(START, actions);
            && i < |s.history|
            && (i in s.open || s.history[i] == Own(Timers) || s.history[i] == Own(Frame))
  {
    RunKeepsInv(START, actions);
    QuietPoll(Run(START, actions), i);
  }

  lemma QuietPoll(s: State, i: nat)
    requires Inv(s) && s.pc.Polling? && s.counter == 0 && i in s.pending
    ensures i < |s.history| && (i in s.open || s.history[i] == Own(Timers) || s.history[i] == Own(Frame))
  {
    PendingKnown(s, i);
    if i !in s.open {
      assert !Owed(s, i);
    }
  }

  /** A quit() of another thread that came after the loop's own test and has returned ends the poll. */
  lemma QuitEndsPoll(actions: seq<Action>)
    requires var s := Run(START, actions); s.pc.Polling? && s.quit && !s.ownQuit && s.quitting == 0
    ensures Run(START, actions).counter > 0
  {
    RunKeepsInv(START, actions);
  }

  lemma {:induction false} RunAppend(s: State, first: seq<Action>, second: seq<Action>)
    ensures Run(s, first + second) == Run(Run(s, first), second)
    decreases |first|
  {
    if first == [] {
      assert [] + second == second;
    } else {
      assert (first + second)[1..] == first[1..] + second;
      RunAppend(Apply(s, first[0]), first[1..], second);
    }
  }

  lemma RunSnoc(s: State, steps: seq<Action>, a: Action)
    ensures Run(s, steps + [a]) == Apply(Run(s, steps), a)
  {
    RunAppend(s, steps, [a]);
    var t := Run(s, steps);
    assert [a][1..] == [];
    assert Run(t, [a]) == Run(Apply(t, a), []);
  }

  /** A task that nothing signals: pending at a poll, with its queueInLoop returned and the counter at zero. */
  predicate Unsignalled(s: State, i: nat, origin: Origin) {
    && s.pc.Polling? && s.counter == 0 && i in s.pending && i !in s.open
    && i < |s.history| && s.history[i] == origin
  }

  ghost predicate AlwaysSignalled(origin: Origin) {
    forall actions: seq<Action>, i: nat :: !Unsignalled(Run(START, actions), i, origin)
  }

  /**
   * The exact condition, by origin: no run leaves a task of the origin unsignalled if and only if it was not
   * queued by the loop thread from a timer callback or from the frame callback.
   */
  lemma SignalledByOrigin(origin: Origin)
    ensures AlwaysSignalled(origin) <==> origin != Own(Timers) && origin != Own(Frame)
  {
    if origin == Own(Timers) {
      var actions := TimerTaskWaits();
      assert Unsignalled(Run(START, actions), 0, origin);
    } else if origin == Own(Frame) {
      var actions := FrameTaskWaits();
      assert Unsignalled(Run(START, actions), 0, origin);
    } else {
      forall actions: seq<Action>, i: nat
        ensures !Unsignalled(Run(START, actions), i, origin)
      {
        var s := Run(START, actions);
        if s.pc.Polling? && s.counter == 0 && i in s.pending {
          NoLostWakeup(actions, i);
        }
      }
    }
  }

  /** A timer callback's task is pending, and nothing ends the poll early. */
  lemma TimerTaskWaits() returns (actions: seq<Action>)
    ensures Unsignalled(Run(START, actions), 0, Own(Timers))
  {
    var s3 := RunThree(START, Begin, CheckQuit, OwnPush);
    assert s3.history == [Own(Timers)] && s3.pending == [0] && s3.open == {0};
    var s5 := RunTwo(s3, Return(0), TimersDone);
    assert s5.open == {};
    actions := [Begin, CheckQuit, OwnPush] + [Return(0), TimersDone];
    RunAppend(START, [Begin, CheckQuit, OwnPush], [Return(0), TimersDone]);
  }

  /** The same for a task that the frame callback queued on the way round. */
  lemma FrameTaskWaits() returns (actions: seq<Action>)
    ensures Unsignalled(Run(START, actions), 0, Own(Frame))
  {
    var polled, swapped, pushed, round := [Begin, CheckQuit, TimersDone], [PollReturns, HandlingDone, Swap],
                                          [TasksDone, OwnPush, Return(0)], [FrameDone, CheckQuit, TimersDone];
    var s := START.(pc := Frame, pending := [0], history := [Own(Frame)]);
    ToTasks();
    FrameQueues();
    RoundAgain(s);
    RunAppend(START, polled + swapped, pushed);
    RunAppend(START, polled + swapped + pushed, round);
    actions := polled + swapped + pushed + round;
  }

  lemma ToTasks()
    ensures Run(START, [Begin, CheckQuit, TimersDone] + [PollReturns, HandlingDone, Swap])
         == START.(pc := Tasks, doing := true)
  {
    var s3 := RunThree(START, Begin, CheckQuit, TimersDone);
    var s6 := RunThree(s3, PollReturns, HandlingDone, Swap);
    RunAppend(START, [Begin, CheckQuit, TimersDone], [PollReturns, HandlingDone, Swap]);
  }

  lemma FrameQueues()
    ensures Run(START.(pc := Tasks, doing := true), [TasksDone, OwnPush, Return(0)])
         == START.(pc := Frame, pending := [0], history := [Own(Frame)])
  {
    var s := RunThree(START.(pc := Tasks, doing := true), TasksDone, OwnPush, Return(0));
    assert s.open == {} && s.pending == [0] && s.history == [Own(Frame)];
  }

  lemma RoundAgain(s: State)
    requires s.pc.Frame? && !s.busy && !s.quit
    ensures Run(s, [FrameDone, CheckQuit, TimersDone]) == s.(pc := Polling)
  {
    var t := RunThree(s, FrameDone, CheckQuit, TimersDone);
  }

  lemma RunTwo(s: State, a: Action, b: Action) returns (t: State)
    ensures t == Apply(Apply(s, a), b) == Run(s, [a, b])
  {
    t := Apply(Apply(s, a), b);
    assert [a, b][1..] == [b] && [b][1..] == [];
    assert Run(Apply(s, a), [b]) == Run(t, []);
  }

  lemma RunThree(s: State, a: Action, b: Action, c: Action) returns (t: State)
    ensures t == Apply(Apply(Apply(s, a), b), c) == Run(s, [a, b, c])
  {
    t := RunTwo(Apply(s, a), b, c);
    assert [a, b, c][1..] == [b, c];
  }

  // ---------- What one step does ----------

  /** The steps that write to the eventfd: the rest of queueInLoop, when it is to, and the rest of quit. */
  predicate Wakes(s: State, a: Action) {
    || (a.Return? && a.task in s.open && a.task < |s.history| && (s.history[a.task].Foreign? || s.doing))
    || (a.ForeignQuitWakes? && s.quitting > 0)
  }

  /** The counter goes up by one for each of them, as far as it goes, and the handler of the eventfd resets it. */
  lemma CounterExact(s: State, a: Action)
    ensures Apply(s, a).counter ==
              if a.HandleRead? && s.pc.Handling? && !s.busy then 0
              else if Wakes(s, a) && s.counter < EVENTFD_MAX then s.counter + 1
              else s.counter
  {
    ControlOrNot(s, a);
  }

  lemma ControlOrNot(s: State, a: Action)
    ensures Control(a) ==> Apply(s, a).history == s.history
  {
    if Control(a) {
      ControlStep(s, a);
    }
  }

  lemma {:induction false} CounterBounded(s: State, actions: seq<Action>)
    requires s.counter <= EVENTFD_MAX
    ensures Run(s, actions).counter <= EVENTFD_MAX
    decreases |actions|
  {
    if actions != [] {
      CounterExact(s, actions[0]);
      CounterBounded(Apply(s, actions[0]), actions[1..]);
    }
  }

  /** Who sets the flag, who clears it, and how many of the other threads' quits have not written yet. */
  lemma QuitExact(s: State, a: Action)
    ensures var t := Apply(s, a);
            var own, begins := a.OwnQuit? && RunsUserCode(s.pc) && !s.busy, a.Begin? && s.pc.Idle?;
            && t.quit == (if begins then false else s.quit || a.ForeignQuit? || own)
            && t.ownQuit == (if begins then false else s.ownQuit || own)
            && t.quitting == s.quitting + (if a.ForeignQuit? then 1 else 0)
                             - (if a.ForeignQuitWakes? && s.quitting > 0 then 1 else 0)
  {
  }

  /** The round of the loop: from one place only to the next, and out of it only by the test of the flag. */
  lemma LoopOrder(s: State, a: Action)
    ensures var t := Apply(s, a);
            t.pc == s.pc || match s.pc
                            case Idle => t.pc.Top? && a.Begin?
                            case Top => a.CheckQuit? && t.pc == if s.quit then Exited else Timers
                            case Timers => t.pc.Polling? && a.TimersDone?
                            case Polling => t.pc.Handling? && a.PollReturns?
                            case Handling => t.pc.Swapping? && a.HandlingDone?
                            case Swapping => t.pc.Tasks? && a.Swap?
                            case Tasks => t.pc.Frame? && a.TasksDone? && s.batch == []
                            case Frame => t.pc.Top? && a.FrameDone?
                            case Exited => false
    ensures s.pc.Top? && !s.busy && a.CheckQuit? ==> Apply(s, a).pc == if s.quit then Exited else Timers
  {
  }

  /** The push of a task, by another thread or in a callback of the loop thread. */
  predicate Pushes(s: State, a: Action) {
    a.ForeignPush? || (a.OwnPush? && RunsUserCode(s.pc) && !s.busy)
  }

  /** What a step does to the tasks: pushed last, swapped as a whole, and executed from the front. */
  lemma TasksExact(s: State, a: Action)
    requires forall i :: i in s.open ==> i < |s.history|
    ensures var t, task := Apply(s, a), |s.history|;
            var swaps := a.Swap? && s.pc.Swapping?;
            var runs := a.RunTask? && s.pc.Tasks? && !s.busy && s.batch != [];
            && t.history == (if !Pushes(s, a) then s.history
                             else s.history + [if a.OwnPush? then Own(s.pc) else Foreign])
            && t.pending == (if swaps then [] else if Pushes(s, a) then s.pending + [task] else s.pending)
            && t.batch == (if swaps then s.pending else if runs then s.batch[1..] else s.batch)
            && t.executed == (if runs then s.executed + [s.batch[0]] else s.executed)
            && t.open == (if Pushes(s, a) then s.open + {task} else if a.Return? then s.open - {a.task} else s.open)
  {
    if Control(a) {
      ControlStep(s, a);
    }
  }

  function Foreigners(history: seq<Origin>): nat {
    if history == [] then 0
    else Foreigners(history[..|history| - 1]) + if history[|history| - 1].Foreign? then 1 else 0
  }

  function ForeignPushes(actions: seq<Action>): nat {
    if actions == [] then 0 else (if actions[0].ForeignPush? then 1 else 0) + ForeignPushes(actions[1..])
  }

  /** Over every run: each push of another thread is in the history once. */
  lemma {:induction false} EveryPushCounts(s: State, actions: seq<Action>)
    requires Inv(s)
    ensures Foreigners(Run(s, actions).history) == Foreigners(s.history) + ForeignPushes(actions)
    decreases |actions|
  {
    if actions != [] {
      var a, t := actions[0], Apply(s, actions[0]);
      StepKeepsInv(s, a);
      TasksExact(s, a);
      if Pushes(s, a) {
        assert t.history[..|s.history|] == s.history;
      }
      EveryPushCounts(t, actions[1..]);
    }
  }

  /** Once the flag is set it stays set, and the loop does not go past its next test. */
  lemma {:induction false} QuitIsFinal(s: State, actions: seq<Action>)
    requires s.quit && !s.pc.Idle?
    ensures Run(s, actions).quit && !Run(s, actions).pc.Idle?
    ensures s.pc.Top? ==> Run(s, actions).pc.Top? || Run(s, actions).pc.Exited?
    ensures s.pc.Exited? ==> Run(s, actions).pc.Exited?
    decreases |actions|
  {
    if actions != [] {
      LoopOrder(s, actions[0]);
      QuitExact(s, actions[0]);
      QuitIsFinal(Apply(s, actions[0]), actions[1..]);
    }
  }

  // ---------- The class ----------

  /** Queueing changes nothing of what the loop thread is doing. */
  predicate Same(s: State, t: State) {
    t.pc == s.pc && t.busy == s.busy && t.executed == s.executed && t.batch == s.batch
  }

  lemma PushAndReturn(s: State, inLoopThread: bool, task: nat)
    requires task == |s.history| && (inLoopThread ==> RunsUserCode(s.pc) && !s.busy)
    ensures Same(s, Apply(Apply(s, if inLoopThread then OwnPush else ForeignPush), Return(task)))
  {
  }

  /** Other threads change nothing of that either; they only add to what is pending. */
  predicate Undisturbed(s: State, t: State) {
    && Same(s, t) && s.pending <= t.pending && s.history <= t.history
    && forall i :: i in s.open && i < |s.history| && s.history[i].Own? ==> i in t.open
  }

  lemma ForeignStep(s: State, a: Action)
    requires a.ForeignPush? || a.ForeignQuit? || a.ForeignQuitWakes? || (a.Return? && a.task in Outstanding(s))
    ensures Undisturbed(s, Apply(s, a))
  {
  }

  /** The calls of queueInLoop by other threads that have pushed and not returned. */
  function Outstanding(s: State): set<nat> {
    set i | i in s.open && i < |s.history| && s.history[i].Foreign?
  }

  lemma PushOutstanding(s: State, origin: Origin)
    requires Shape(s)
    ensures Outstanding(Push(s, origin)) == Outstanding(s) + if origin.Foreign? then {|s.history|} else {}
  {
    assert forall i :: 0 <= i < |s.history| ==> Push(s, origin).history[i] == s.history[i];
  }

  lemma ReturnOutstanding(s: State, task: nat)
    ensures Outstanding(Apply(s, Return(task))) == Outstanding(s) - {task}
  {
  }

  lemma StillUndisturbed(s: State, t: State, u: State)
    requires Undisturbed(s, t) && Undisturbed(t, u)
    ensures Undisturbed(s, u)
  {
    assert forall i :: 0 <= i < |s.history| ==> t.history[i] == s.history[i];
  }

  /**
   * The loop object. `view` is its state in the transition system, and every method is proved to be made of
   * that system's steps. Functors are named by the order in which they were enqueued. `calls` and `quits` are
   * where the other threads are: their calls of queueInLoop that have pushed and not returned, and how many of
   * their calls of quit have set the flag and not written to the eventfd.
   */
  class EventLoop {
    var pendingFunctors: seq<nat>
    var doingOtherTasks: bool
    var quit: bool
    var wakeupCounter: nat
    var enqueued: nat
    var calls: set<nat>
    var quits: nat
    ghost var view: State

    ghost predicate Valid()
      reads this
    {
      && Inv(view)
      && view.pending == pendingFunctors && view.doing == doingOtherTasks && view.quit == quit
      && view.counter == wakeupCounter && |view.history| == enqueued && view.quitting == quits
      && calls == Outstanding(view)
    }

    constructor ()
      ensures Valid() && view == START
    {
      pendingFunctors, doingOtherTasks, quit, wakeupCounter, enqueued := [], false, false, 0, 0;
      calls, quits, view := {}, 0, START;
    }

    /** A write of 1 to the eventfd: false when the counter is at its maximum. */
    method Wakeup() returns (ok: bool)
      modifies `wakeupCounter
      ensures ok == (old(wakeupCounter) < EVENTFD_MAX)
      ensures wakeupCounter == old(wakeupCounter) + (if ok then 1 else 0)
    {
      ok := wakeupCounter < EVENTFD_MAX;
      if ok {
        wakeupCounter := wakeupCounter + 1;
      }
    }

    method HandleReadable()
      requires Valid() && view.pc.Handling? && !view.busy
      modifies this
      ensures Valid() && view == Apply(old(view), HandleRead)
    {
      StepKeepsInv(view, HandleRead);
      wakeupCounter := 0;
      view := Apply(view, HandleRead);
    }

    /** The critical section of queueInLoop; other threads may take steps before the rest of it. */
    method PushBack(inLoopThread: bool) returns (task: nat)
      requires Valid() && (inLoopThread ==> RunsUserCode(view.pc) && !view.busy)
      modifies this
      ensures Valid() && task == old(enqueued) && enqueued == task + 1
      ensures pendingFunctors == old(pendingFunctors) + [task]
      ensures view == Apply(old(view), if inLoopThread then OwnPush else ForeignPush)
    {
      task := enqueued;
      ghost var push := if inLoopThread then OwnPush else ForeignPush;
      StepKeepsInv(view, push);
      PushOutstanding(view, if inLoopThread then Own(view.pc) else Foreign);
      pendingFunctors := pendingFunctors + [task];
      enqueued := enqueued + 1;
      calls := if inLoopThread then calls else calls + {task};
      view := Apply(view, push);
    }

    /** The rest of queueInLoop, in the thread that has pushed `task`. */
    method WakeIfNeeded(task: nat, inLoopThread: bool)
      requires Valid() && task in view.open && task < |view.history| && view.history[task].Own? == inLoopThread
      modifies this
      ensures Valid() && view == Apply(old(view), Return(task))
      ensures pendingFunctors == old(pendingFunctors) && enqueued == old(enqueued)
    {
      StepKeepsInv(view, Return(task));
      ReturnOutstanding(view, task);
      if !inLoopThread || doingOtherTasks {
        var _ := Wakeup();
      }
      calls := calls - {task};
      view := Apply(view, Return(task));
    }

    /** Both parts with nothing in between. */
    method QueueInLoop(inLoopThread: bool) returns (task: nat)
      requires Valid() && (inLoopThread ==> RunsUserCode(view.pc) && !view.busy)
      modifies this
      ensures Valid() && task == old(enqueued) && enqueued == task + 1
      ensures pendingFunctors == old(pendingFunctors) + [task]
      ensures view == Run(old(view), [if inLoopThread then OwnPush else ForeignPush, Return(task)])
      ensures Same(old(view), view)
    {
      ghost var start, push := view, if inLoopThread then OwnPush else ForeignPush;
      task := PushBack(inLoopThread);
      WakeIfNeeded(task, inLoopThread);
      var _ := RunTwo(start, push, Return(task));
      PushAndReturn(start, inLoopThread, task);
    }

    /** quit() in another thread: first the flag, then the wakeup. */
    method SetQuit()
      requires Valid()
      modifies this
      ensures Valid() && view == Apply(old(view), ForeignQuit)
    {
      StepKeepsInv(view, ForeignQuit);
      quit, quits := true, quits + 1;
      view := Apply(view, ForeignQuit);
    }

    method WakeAfterQuit()
      requires Valid() && quits > 0
      modifies this
      ensures Valid() && view == Apply(old(view), ForeignQuitWakes)
    {
      StepKeepsInv(view, ForeignQuitWakes);
      var _ := Wakeup();
      quits := quits - 1;
      view := Apply(view, ForeignQuitWakes);
    }

    /** A step of another thread, if it is there to take it. */
    method StepElsewhere(a: Action) returns (taken: bool)
      requires Valid()
      modifies this
      ensures Valid() && view == (if taken then Apply(old(view), a) else old(view))
      ensures Undisturbed(old(view), view)
      ensures taken == (a.ForeignPush? || a.ForeignQuit? || (a.ForeignQuitWakes? && old(quits) > 0)
                        || (a.Return? && a.task in old(calls)))
    {
      taken := match a
               case ForeignPush => true
               case ForeignQuit => true
               case ForeignQuitWakes => quits > 0
               case Return(task) => task in calls
               case _ => false;
      if taken {
        ForeignStep(view, a);
        match a {
          case ForeignPush =>
            var _ := PushBack(false);
          case Return(task) => WakeIfNeeded(task, false);
          case ForeignQuit => SetQuit();
          case ForeignQuitWakes => WakeAfterQuit();
        }
      }
    }

    /** Other threads take any number of steps. */
    method Meanwhile(others: seq<Action>, ghost before: seq<Action>, ghost start: State)
      returns (ghost steps: seq<Action>)
      requires Valid() && view == Run(start, before)
      modifies this
      ensures Valid() && view == Run(start, steps) && Undisturbed(old(view), view)
    {
      ghost var first := view;
      steps := before;
      for i := 0 to |others|
        invariant Valid() && view == Run(start, steps) && Undisturbed(first, view)
      {
        ghost var s := view;
        var taken := StepElsewhere(others[i]);
        StillUndisturbed(first, s, view);
        if taken {
          RunSnoc(start, steps, others[i]);
          steps := steps + [others[i]];
        }
      }
    }

    method PushOwn(ghost before: seq<Action>, ghost start: State) returns (task: nat, ghost steps: seq<Action>)
      requires Valid() && view.pc.Tasks? && !view.busy && view == Run(start, before)
      modifies this
      ensures Valid() && view == Run(start, steps) && view == Push(old(view), Own(Tasks)) && task == |old(view).history|
    {
      RunSnoc(start, before, OwnPush);
      task := PushBack(true);
      steps := before + [OwnPush];
    }

    method ReturnOwn(task: nat, ghost before: seq<Action>, ghost start: State) returns (ghost steps: seq<Action>)
      requires Valid() && view == Run(start, before)
      requires task in view.open && task < |view.history| && view.history[task].Own?
      modifies this
      ensures Valid() && view == Run(start, steps) && Same(old(view).(busy := false), view)
    {
      RunSnoc(start, before, Return(task));
      WakeIfNeeded(task, true);
      steps := before + [Return(task)];
    }

    /** queueInLoop in the loop thread, with steps of other threads before it and in the middle of it. */
    method QueueOwn(earlier: seq<Action>, between: seq<Action>, ghost before: seq<Action>, ghost start: State)
      returns (ghost steps: seq<Action>)
      requires Valid() && view.pc.Tasks? && !view.busy && view == Run(start, before)
      modifies this
      ensures Valid() && view == Run(start, steps) && Same(old(view), view)
    {
      var task;
      steps := Meanwhile(earlier, before, start);
      task, steps := PushOwn(steps, start);
      steps := Meanwhile(between, steps, start);
      steps := ReturnOwn(task, steps, start);
    }

    /**
     * One functor, which queues `own` tasks; `others(k)` are the steps of other threads at the `k`-th of the
     * places where they can come: before each task is pushed, before the call returns, and at the end.
     */
    method RunFunctor(own: nat, others: nat -> seq<Action>, ghost before: seq<Action>, ghost start: State)
      returns (ghost steps: seq<Action>)
      requires Valid() && view.pc.Tasks? && !view.busy && view == Run(start, before)
      modifies this
      ensures Valid() && view == Run(start, steps) && Same(old(view), view)
    {
      steps := before;
      for k := 0 to own
        invariant Valid() && view == Run(start, steps) && Same(old(view), view)
      {
        steps := QueueOwn(others(2 * k), others(2 * k + 1), steps, start);
      }
      steps := Meanwhile(others(2 * own), steps, start);
    }

    method RaiseFlag()
      requires Valid() && view.pc.Handling? && !view.busy
      modifies this
      ensures Valid() && view == Apply(old(view), HandlingDone) && pendingFunctors == old(pendingFunctors)
    {
      StepKeepsInv(view, HandlingDone);
      doingOtherTasks := true;
      view := Apply(view, HandlingDone);
    }

    /** The swap under the lock. */
    method Swap() returns (functors: seq<nat>)
      requires Valid() && view.pc.Swapping?
      modifies this
      ensures Valid() && view == Apply(old(view), Action.Swap) && functors == old(pendingFunctors)
    {
      StepKeepsInv(view, Action.Swap);
      functors := [];
      functors, pendingFunctors := pendingFunctors, functors;
      view := Apply(view, Action.Swap);
    }

    method LowerFlag()
      requires Valid() && view.pc.Tasks? && !view.busy && view.batch == []
      modifies this
      ensures Valid() && view == Apply(old(view), TasksDone)
    {
      StepKeepsInv(view, TasksDone);
      doingOtherTasks := false;
      view := Apply(view, TasksDone);
    }

    /** Raises the flag and, after any steps of other threads, takes the pending functors out. */
    method SwapOut(others: seq<Action>) returns (functors: seq<nat>, ghost steps: seq<Action>)
      requires Valid() && view.pc.Handling? && !view.busy
      modifies this
      ensures Valid() && view == Run(old(view), steps)
      ensures old(pendingFunctors) <= functors
      ensures view.pc.Tasks? && !view.busy && view.batch == functors && view.executed == old(view).executed
    {
      ghost var start := view;
      RunSnoc(start, [], HandlingDone);
      assert [] + [HandlingDone] == [HandlingDone];
      RaiseFlag();
      steps := Meanwhile(others, [HandlingDone], start);
      RunSnoc(start, steps, Action.Swap);
      functors := Swap();
      steps := steps + [Action.Swap];
    }

    /** One turn of the loop over the batch. */
    method RunNext(f: nat, own: nat, others: nat -> seq<Action>, ghost before: seq<Action>, ghost start: State)
      returns (ghost steps: seq<Action>)
      requires Valid() && view.pc.Tasks? && !view.busy && view == Run(start, before)
      requires view.batch != [] && view.batch[0] == f
      modifies this
      ensures Valid() && view == Run(start, steps) && view.pc.Tasks? && !view.busy
      ensures view.batch == old(view).batch[1..] && view.executed == old(view).executed + [f]
    {
      StepKeepsInv(view, RunTask);
      RunSnoc(start, before, RunTask);
      view := Apply(view, RunTask);
      steps := RunFunctor(own, others, before + [RunTask], start);
    }

    /**
     * Runs what is pending at the swap, in order, and leaves what is queued since for the next pass, with the
     * wakeup counter positive if any of it is owed. While functor `f` runs, it queues `own(f)` tasks, and other
     * threads take any steps between its own: `others(f)`, and `atSwap` and `atEnd` around the functors.
     */
    method DoOtherTasks(own: nat -> nat, others: nat -> nat -> seq<Action>, atSwap: seq<Action>, atEnd: seq<Action>)
      returns (functors: seq<nat>, ghost steps: seq<Action>)
      requires Valid() && view.pc.Handling? && !view.busy
      modifies this
      ensures Valid() && view == Run(old(view), steps)
      ensures view.pc.Frame? && !view.busy && view.batch == []
      ensures old(pendingFunctors) <= functors && view.executed == old(view).executed + functors
      ensures forall i :: i in pendingFunctors && Owed(view, i) ==> wakeupCounter > 0
    {
      ghost var start := view;
      functors, steps := SwapOut(atSwap);
      var i := 0;
      while i < |functors|
        invariant 0 <= i <= |functors| && Valid() && view == Run(start, steps)
        invariant view.pc.Tasks? && !view.busy && view.batch == functors[i..]
        invariant view.executed == start.executed + functors[..i]
        decreases |functors| - i
      {
        AppendNext(start.executed, functors, i);
        assert functors[i..][1..] == functors[i + 1..];
        steps := RunNext(functors[i], own(functors[i]), others(functors[i]), steps, start);
        i := i + 1;
      }
      assert functors[..i] == functors;
      steps := Meanwhile(atEnd, steps, start);
      RunSnoc(start, steps, TasksDone);
      LowerFlag();
      steps := steps + [TasksDone];
    }
  }
}
