/** `GuardThreadExecutor` in place: the object whose fields the threads share, with one method for
    the next step of each kind of thread, and the consumer's two loops as they run when no
    other thread moves in between. */
module GuardThreadExecutor {
  import opened Basics
  import opened GuardThread

  class GuardThreadExecutor {
    const queueThreshold: nat
    var state: Flag
    var queueTaskNum: int
    var queue: seq<Task>
    var mutex: Owner

    // The local state of the threads.
    var tmpQueue: seq<Task>
    var consumer: ConsumerPc
    var stopper: StopperPc
    var producers: seq<ProducerPc>

    ghost var pushed: seq<Task>
    ghost var finished: seq<Task>
    ghost var thrown: nat

    ghost function State(): State
      reads this
    {
      GuardThread.State(state, mutex, queue, queueTaskNum, consumer, tmpQueue, stopper, producers,
                        pushed, finished, thrown)
    }

    constructor (queueThreshold: nat, n: nat)
      ensures State() == Initial(n) && this.queueThreshold == queueThreshold
    {
      this.queueThreshold := queueThreshold;
      state, queueTaskNum, queue, mutex := Init, 0, [], Free;
      tmpQueue, consumer, stopper, producers := [], Top, NotCalled, seq(n, _ => Idle);
      pushed, finished, thrown := [], [], 0;
    }

    method NotifyOne()
      modifies this`consumer
      ensures consumer == Notify(old(consumer))
    {
      if consumer == Asleep {
        consumer := WantLock;
      }
    }

    /** The next step of the consumer thread; `throws` is the outcome of a task run in it. */
    method ConsumerMoves(throws: bool) returns (moved: bool)
      modifies this
      ensures ConsumerStep(old(State()), throws) == if moved then Some(State()) else None
      ensures !moved ==> State() == old(State())
    {
      moved := true;
      match consumer {
        case Top => consumer := if state == Flag.Shutdown then Drain else WantLock;
        case WantLock =>
          if mutex != Free { return false; }
          mutex, consumer := Consumer, EvalQueue;
        case EvalQueue => consumer := if queue != [] then Swap else EvalState;
        case EvalState => consumer := if state == Flag.Shutdown then Swap else GoSleep;
        case GoSleep => mutex, consumer := Free, Asleep;
        case Swap =>
          queue, tmpQueue := tmpQueue, queue;
          mutex, consumer := Free, RunBatch;
        case RunBatch =>
          if tmpQueue == [] {
            consumer := Top;
          } else if throws {
            PopBatch();
            thrown := thrown + 1;
          } else {
            consumer := Finish;
          }
        case Finish =>
          if tmpQueue == [] { return false; }
          queueTaskNum := (queueTaskNum - 1) % TWO_TO_THE_32;
          PopBatch();
          consumer := RunBatch;
        case Drain =>
          if queue == [] {
            consumer := Done;
          } else if throws {
            thrown := thrown + 1;
            consumer := DrainPop;
          } else {
            consumer := DrainFinish;
          }
        case DrainFinish =>
          queueTaskNum := (queueTaskNum - 1) % TWO_TO_THE_32;
          consumer := DrainPop;
        case DrainPop =>
          if queue == [] { return false; }
          PopQueue();
          consumer := Drain;
        case Asleep => moved := false;
        case Done => moved := false;
      }
    }

    method PopBatch()
      requires tmpQueue != []
      modifies this`tmpQueue, this`finished
      ensures tmpQueue == old(tmpQueue[1..]) && finished == old(finished) + [old(tmpQueue[0])]
    {
      finished := finished + [tmpQueue[0]];
      tmpQueue := tmpQueue[1..];
    }

    method PopQueue()
      requires queue != []
      modifies this`queue, this`finished
      ensures queue == old(queue[1..]) && finished == old(finished) + [old(queue[0])]
    {
      finished := finished + [queue[0]];
      queue := queue[1..];
    }

    /** `Start` sets the flag whatever it was; it throws unless it was `Init`. */
    method Start() returns (throws: bool)
      modifies this`state
      ensures Next(old(State()), queueThreshold, StartCalled) == Some(State())
      ensures throws <==> old(state) != Init
    {
      throws := state != Init;
      state := Flag.Start;
    }

    /** The next step of the first call of `Shutdown`. */
    method ShutdownMoves() returns (moved: bool)
      modifies this`state, this`mutex, this`consumer, this`stopper
      ensures StopperStep(old(State())) == if moved then Some(State()) else None
      ensures !moved ==> State() == old(State())
    {
      moved := true;
      match stopper {
        case NotCalled => state, stopper := Flag.Shutdown, FlagSet;
        case FlagSet =>
          if mutex != Free { return false; }
          mutex, stopper := Stopper, Holding;
        case Holding =>
          NotifyOne();
          stopper := Releasing;
        case Releasing => mutex, stopper := Free, Joining;
        case Joining =>
          if consumer != Done { return false; }
          stopper := Joined;
        case Joined => moved := false;
      }
    }

    /** The next step of the call of `Execute` that producer `p` is in. */
    method ExecuteMoves(p: nat) returns (moved: bool)
      requires p < |producers|
      modifies this
      ensures ProducerStep(old(State()), queueThreshold, p) == if moved then Some(State()) else None
      ensures !moved ==> State() == old(State())
    {
      moved := true;
      var pc := producers[p];
      match producers[p] {
        case Idle => return false;
        case Called(t) => pc := Checked(t);
        case Checked(t) =>
          queueTaskNum := (queueTaskNum + 1) % TWO_TO_THE_32;
          pc := if queueTaskNum > queueThreshold then Rejecting else Admitted(t);
        case Rejecting =>
          queueTaskNum := (queueTaskNum - 1) % TWO_TO_THE_32;
          pc := Idle;
        case Admitted(t) =>
          if mutex != Free { return false; }
          mutex, pc := Producer(p), Pushing(t);
        case Pushing(t) =>
          queue, pushed := queue + [t], pushed + [t];
          pc := Notifying;
        case Notifying =>
          NotifyOne();
          pc := Unlocking;
        case Unlocking => mutex, pc := Free, Idle;
      }
      producers := producers[p := pc];
    }

    /** One turn of the loop over a batch. */
    method RunTask(throws: bool)
      requires consumer == RunBatch && tmpQueue != []
      modifies this
      ensures consumer == RunBatch && tmpQueue == old(tmpQueue[1..]) && finished == old(finished) + [old(tmpQueue[0])]
      ensures thrown == old(thrown) + (if throws then 1 else 0)
      ensures queueTaskNum == if throws then old(queueTaskNum) else Decrement(old(queueTaskNum))
      ensures state == old(state) && mutex == old(mutex) && queue == old(queue) && pushed == old(pushed)
      ensures stopper == old(stopper) && producers == old(producers)
    {
      var moved := ConsumerMoves(throws);
      if !throws {
        moved := ConsumerMoves(false);
      }
    }

    /** The loop over a batch: every task runs, in order; each that returns gives its place back,
        each that throws keeps it for ever. `throws(j)` is the outcome of the `j`-th task run. */
    method RunTmpQueue(throws: nat -> bool)
      requires consumer == RunBatch && 0 <= queueTaskNum < TWO_TO_THE_32
      modifies this
      ensures consumer == Top && tmpQueue == [] && finished == old(finished + tmpQueue)
      ensures thrown == old(thrown) + Throwing(throws, |old(tmpQueue)|)
      ensures queueTaskNum == GivenBack(old(queueTaskNum), |old(tmpQueue)| - Throwing(throws, |old(tmpQueue)|))
      ensures state == old(state) && mutex == old(mutex) && queue == old(queue) && pushed == old(pushed)
      ensures stopper == old(stopper) && producers == old(producers)
    {
      ghost var all := tmpQueue;
      var j := 0;
      while tmpQueue != []
        invariant consumer == RunBatch && j <= |all| && tmpQueue == all[j..]
        invariant finished == old(finished) + all[..j]
        invariant thrown == old(thrown) + Throwing(throws, j)
        invariant queueTaskNum == CounterAfter(old(queueTaskNum), throws, j)
        invariant state == old(state) && mutex == old(mutex) && queue == old(queue) && pushed == old(pushed)
        invariant stopper == old(stopper) && producers == old(producers)
        decreases |tmpQueue|
      {
        RunTask(throws(j));
        j := j + 1;
      }
      var moved := ConsumerMoves(false);
      assert all[..j] == all;
      CounterGivenBack(old(queueTaskNum), throws, j);
    }

    /** One turn of the drain loop. */
    method RunLeftTask(throws: bool)
      requires consumer == Drain && queue != []
      modifies this
      ensures consumer == Drain && queue == old(queue[1..]) && finished == old(finished) + [old(queue[0])]
      ensures thrown == old(thrown) + (if throws then 1 else 0)
      ensures queueTaskNum == if throws then old(queueTaskNum) else Decrement(old(queueTaskNum))
      ensures state == old(state) && mutex == old(mutex) && tmpQueue == old(tmpQueue) && pushed == old(pushed)
      ensures stopper == old(stopper) && producers == old(producers)
    {
      var moved := ConsumerMoves(throws);
      if !throws {
        moved := ConsumerMoves(false);
      }
      moved := ConsumerMoves(false);
    }

    /** The drain after shutdown, when nobody pushes any more: the consumer exits with the queue
        empty and everything that was in it run in order, counted as in a batch. */
    method RunLeftTasks(throws: nat -> bool)
      requires consumer == Drain && 0 <= queueTaskNum < TWO_TO_THE_32
      modifies this
      ensures consumer == Done && queue == [] && finished == old(finished + queue)
      ensures thrown == old(thrown) + Throwing(throws, |old(queue)|)
      ensures queueTaskNum == GivenBack(old(queueTaskNum), |old(queue)| - Throwing(throws, |old(queue)|))
      ensures state == old(state) && mutex == old(mutex) && tmpQueue == old(tmpQueue) && pushed == old(pushed)
      ensures stopper == old(stopper) && producers == old(producers)
    {
      ghost var all := queue;
      var j := 0;
      while queue != []
        invariant consumer == Drain && j <= |all| && queue == all[j..]
        invariant finished == old(finished) + all[..j]
        invariant thrown == old(thrown) + Throwing(throws, j)
        invariant queueTaskNum == CounterAfter(old(queueTaskNum), throws, j)
        invariant state == old(state) && mutex == old(mutex) && tmpQueue == old(tmpQueue) && pushed == old(pushed)
        invariant stopper == old(stopper) && producers == old(producers)
        decreases |queue|
      {
        RunLeftTask(throws(j));
        j := j + 1;
      }
      var moved := ConsumerMoves(false);
      assert all[..j] == all;
      CounterGivenBack(old(queueTaskNum), throws, j);
    }
  }

  /** The 32-bit counter after `k` tasks have given their places back. */
  function GivenBack(counter: int, k: int): int {
    (counter - k) % TWO_TO_THE_32
  }

  lemma GiveBackOne(counter: int, k: int)
    ensures Decrement(GivenBack(counter, k)) == GivenBack(counter, k + 1)
  {
  }

  /** The counter after the tasks `0`, ..., `j - 1` have run, one after the other. */
  function CounterAfter(counter: int, throws: nat -> bool, j: nat): int {
    if j == 0 then counter
    else if throws(j - 1) then CounterAfter(counter, throws, j - 1)
    else Decrement(CounterAfter(counter, throws, j - 1))
  }

  lemma {:induction false} CounterGivenBack(counter: int, throws: nat -> bool, j: nat)
    requires 0 <= counter < TWO_TO_THE_32
    ensures CounterAfter(counter, throws, j) == GivenBack(counter, j - Throwing(throws, j))
  {
    if j > 0 {
      CounterGivenBack(counter, throws, j - 1);
      GiveBackOne(counter, j - 1 - Throwing(throws, j - 1));
    }
  }

  /** How many of the tasks `0`, ..., `n - 1` throw. */
  function Throwing(throws: nat -> bool, n: nat): (count: nat)
    ensures count <= n
  {
    if n == 0 then 0 else Throwing(throws, n - 1) + if throws(n - 1) then 1 else 0
  }
}
