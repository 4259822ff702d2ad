/** `GuardThreadExecutor` as a system of interleaved steps.

    One consumer thread, one thread that shuts the executor down, and any fixed number of
    producer threads, each of which may call `Execute` any number of times. A step is one access
    to shared state: one atomic operation, one evaluation under the lock, one acquisition or
    release of the lock. Evaluating the wait predicate, going to sleep, incrementing the counter,
    pushing and notifying are separate steps, so that anything may happen in between. */
module GuardThread {
  import opened Basics

  const TWO_TO_THE_32: int := 0x1_0000_0000

  datatype Flag = Init | Start | Shutdown

  datatype Owner = Free | Consumer | Stopper | Producer(p: nat)

  /** Where the consumer thread is. `Asleep` is inside `cond_.wait`, not yet notified. */
  datatype ConsumerPc =
    | Top | WantLock | EvalQueue | EvalState | GoSleep | Asleep | Swap
    | RunBatch | Finish | Drain | DrainFinish | DrainPop | Done

  /** Where the first call of `Shutdown` is. */
  datatype StopperPc = NotCalled | FlagSet | Holding | Releasing | Joining | Joined

  /** Where a producer's call of `Execute` is. */
  datatype ProducerPc =
    | Idle | Called(task: Task) | Checked(task: Task) | Rejecting
    | Admitted(task: Task) | Pushing(task: Task) | Notifying | Unlocking

  /** `pushed`, `finished` and `thrown` record the past: the tasks in the order they were queued,
      those that were taken off after they had run, in that order, and how many threw. */
  datatype State = State(
    flag: Flag, owner: Owner, queue: seq<Task>, counter: int,
    consumer: ConsumerPc, batch: seq<Task>, stopper: StopperPc, producers: seq<ProducerPc>,
    pushed: seq<Task>, finished: seq<Task>, thrown: nat)

  /** Who moves: `StartCalled` is a call of `Start`, which sets the flag whatever it was, and throws
      unless it was `Init`; `Consume(throws)` says whether the task run in this step, if any, throws;
      `Wake` is a spurious wake-up; `Call` begins a new `Execute`. */
  datatype Label = StartCalled | Stop | Consume(throws: bool) | Wake | Call(p: nat, task: Task) | Produce(p: nat)

  function Initial(n: nat): State {
    State(Init, Free, [], 0, Top, [], NotCalled, seq(n, _ => Idle), [], [], 0)
  }

  // ---- Steps ------------------------------------------------------------------------------

  function Increment(counter: int): int { (counter + 1) % TWO_TO_THE_32 }

  function Decrement(counter: int): int { (counter - 1) % TWO_TO_THE_32 }

  /** `cond_.notify_one()`: a sleeping consumer goes on to take the lock again. */
  function Notify(c: ConsumerPc): ConsumerPc {
    if c == Asleep then WantLock else c
  }

  function ConsumerStep(s: State, throws: bool): Option<State> {
    match s.consumer
    case Top => Some(s.(consumer := if s.flag == Shutdown then Drain else WantLock))
    case WantLock => if s.owner == Free then Some(s.(owner := Consumer, consumer := EvalQueue)) else None
    case EvalQueue => Some(s.(consumer := if s.queue != [] then Swap else EvalState))
    case EvalState => Some(s.(consumer := if s.flag == Shutdown then Swap else GoSleep))
    case GoSleep => Some(s.(owner := Free, consumer := Asleep))
    case Asleep => None
    case Swap => Some(s.(batch := s.queue, queue := s.batch, owner := Free, consumer := RunBatch))
    case RunBatch =>
      if s.batch == [] then Some(s.(consumer := Top))
      else if throws then
        Some(s.(batch := s.batch[1..], finished := s.finished + [s.batch[0]], thrown := s.thrown + 1))
      else Some(s.(consumer := Finish))
    case Finish =>
      if s.batch == [] then None
      else Some(s.(batch := s.batch[1..], finished := s.finished + [s.batch[0]],
                   counter := Decrement(s.counter), consumer := RunBatch))
    case Drain =>
      if s.queue == [] then Some(s.(consumer := Done))
      else if throws then Some(s.(thrown := s.thrown + 1, consumer := DrainPop))
      else Some(s.(consumer := DrainFinish))
    case DrainFinish => Some(s.(counter := Decrement(s.counter), consumer := DrainPop))
    case DrainPop =>
      if s.queue == [] then None
      else Some(s.(queue := s.queue[1..], finished := s.finished + [s.queue[0]], consumer := Drain))
    case Done => None
  }

  function StopperStep(s: State): Option<State> {
    match s.stopper
    case NotCalled => Some(s.(flag := Shutdown, stopper := FlagSet))
    case FlagSet => if s.owner == Free then Some(s.(owner := Stopper, stopper := Holding)) else None
    case Holding => Some(s.(consumer := Notify(s.consumer), stopper := Releasing))
    case Releasing => Some(s.(owner := Free, stopper := Joining))
    case Joining => if s.consumer == Done then Some(s.(stopper := Joined)) else None
    case Joined => None
  }

  /** In the wrong state `Execute` only logs, so `Called` goes on whatever the flag is. */
  function ProducerStep(s: State, threshold: nat, p: nat): Option<State>
    requires p < |s.producers|
  {
    match s.producers[p]
    case Idle => None
    case Called(t) => Some(s.(producers := s.producers[p := Checked(t)]))
    case Checked(t) =>
      var cur := Increment(s.counter);
      Some(s.(counter := cur, producers := s.producers[p := if cur > threshold then Rejecting else Admitted(t)]))
    case Rejecting => Some(s.(counter := Decrement(s.counter), producers := s.producers[p := Idle]))
    case Admitted(t) =>
      if s.owner == Free then Some(s.(owner := Producer(p), producers := s.producers[p := Pushing(t)])) else None
    case Pushing(t) =>
      Some(s.(queue := s.queue + [t], pushed := s.pushed + [t], producers := s.producers[p := Notifying]))
    case Notifying => Some(s.(consumer := Notify(s.consumer), producers := s.producers[p := Unlocking]))
    case Unlocking => Some(s.(owner := Free, producers := s.producers[p := Idle]))
  }

  /** The step of a label, or `None` where that thread is blocked or has nothing to do. */
  function Next(s: State, threshold: nat, l: Label): Option<State> {
    match l
    case StartCalled => Some(s.(flag := Start))
    case Stop => StopperStep(s)
    case Consume(throws) => ConsumerStep(s, throws)
    case Wake => if s.consumer == Asleep then Some(s.(consumer := WantLock)) else None
    case Call(p, t) =>
      if p < |s.producers| && s.producers[p] == Idle
      then Some(s.(producers := s.producers[p := Called(t)])) else None
    case Produce(p) => if p < |s.producers| then ProducerStep(s, threshold, p) else None
  }

  /** Any interleaving; a label whose thread cannot move does nothing. */
  ghost function Run(n: nat, threshold: nat, labels: seq<Label>): (s: State)
    ensures |s.producers| == n
  {
    if labels == [] then Initial(n)
    else
      var s := Run(n, threshold, labels[..|labels| - 1]);
      match Next(s, threshold, labels[|labels| - 1])
      case None => s
      case Some(s') => s'
  }

  // ---- Counting producers -----------------------------------------------------------------

  /** What a producer contributes: one task admitted but not yet queued, one call being
      rejected, or an upper bound on the steps its call can still cause, after a shutdown
      (`StepsLeft`) or without one (`WorkLeft`). */
  datatype Aspect = InFlight | BeingRejected | StepsLeft | WorkLeft

  function Weight(a: Aspect, pc: ProducerPc): nat {
    match a
    case InFlight => if pc.Admitted? || pc.Pushing? then 1 else 0
    case BeingRejected => if pc.Rejecting? then 1 else 0
    case StepsLeft =>
      (match pc
       case Idle => 0
       case Called(_) => 9
       case Checked(_) => 8
       case Rejecting => 1
       case Admitted(_) => 7
       case Pushing(_) => 6
       case Notifying => 2
       case Unlocking => 1)
    case WorkLeft =>
      (match pc
       case Idle => 0
       case Called(_) => 17
       case Checked(_) => 16
       case Rejecting => 1
       case Admitted(_) => 15
       case Pushing(_) => 14
       case Notifying => 6
       case Unlocking => 1)
  }

  function Total(a: Aspect, ps: seq<ProducerPc>): nat {
    if ps == [] then 0 else Weight(a, ps[0]) + Total(a, ps[1..])
  }

  lemma {:induction false} TotalUpdate(a: Aspect, ps: seq<ProducerPc>, p: nat, pc: ProducerPc)
    requires p < |ps|
    ensures Total(a, ps[p := pc]) + Weight(a, ps[p]) == Total(a, ps) + Weight(a, pc)
  {
    if p == 0 {
      assert ps[p := pc][1..] == ps[1..];
    } else {
      assert ps[p := pc][1..] == ps[1..][p - 1 := pc];
      TotalUpdate(a, ps[1..], p - 1, pc);
    }
  }

  lemma {:induction false} TotalAtMost(a: Aspect, ps: seq<ProducerPc>)
    requires a == InFlight || a == BeingRejected
    ensures Total(a, ps) <= |ps|
  {
    if ps != [] {
      TotalAtMost(a, ps[1..]);
    }
  }

  lemma {:induction false} TotalOfIdle(a: Aspect, ps: seq<ProducerPc>)
    requires forall p :: 0 <= p < |ps| ==> ps[p] == Idle
    ensures Total(a, ps) == 0
  {
    if ps != [] {
      TotalOfIdle(a, ps[1..]);
    }
  }

  // ---- The invariant ------------------------------------------------------------------------

  predicate ConsumerHolds(c: ConsumerPc) { c in {EvalQueue, EvalState, GoSleep, Swap} }

  predicate StopperHolds(c: StopperPc) { c in {Holding, Releasing} }

  predicate ProducerHolds(pc: ProducerPc) { pc.Pushing? || pc.Notifying? || pc.Unlocking? }

  /** The lock is held by whoever is between acquiring and releasing it, and by nobody else. */
  ghost predicate MutexInv(s: State) {
    && (s.owner == Consumer <==> ConsumerHolds(s.consumer))
    && (s.owner == Stopper <==> StopperHolds(s.stopper))
    && (s.owner.Producer? ==> s.owner.p < |s.producers|)
    && forall p :: 0 <= p < |s.producers| ==> (ProducerHolds(s.producers[p]) <==> s.owner == Producer(p))
  }

  /** The producer holding the lock has queued its task and will notify next. */
  predicate AboutToNotify(s: State) {
    s.owner.Producer? && s.owner.p < |s.producers| && s.producers[s.owner.p] == Notifying
  }

  predicate StopperHasNotified(s: State) {
    s.stopper in {Releasing, Joining, Joined}
  }

  /** A consumer about to sleep, or asleep and not notified, has nothing to run. */
  ghost predicate SleepInv(s: State) {
    && (s.consumer == EvalState ==> s.queue == [])
    && (s.consumer == GoSleep ==> s.queue == [])
    && (s.consumer == Asleep ==> s.queue == [] || AboutToNotify(s))
  }

  ghost predicate PhaseInv(s: State) {
    && (s.consumer !in {RunBatch, Finish} ==> s.batch == [])
    && (s.consumer == Finish ==> s.batch != [])
    && (s.consumer in {DrainFinish, DrainPop} ==> s.queue != [])
    && (s.stopper == Joined ==> s.consumer == Done)
  }

  ghost predicate LogInv(s: State) {
    s.finished + s.batch + s.queue == s.pushed
  }

  /** The consumer has left its main loop. */
  predicate HasLeft(c: ConsumerPc) { c in {Drain, DrainFinish, DrainPop, Done} }

  /** The consumer has left its main loop or will: the flag reads `Shutdown`. */
  predicate Leaving(s: State) {
    s.flag == Shutdown || HasLeft(s.consumer)
  }

  /** Only `Shutdown` makes the consumer leave, and a consumer that is to leave does not sleep once
      `Shutdown` has notified. */
  ghost predicate LeaveInv(s: State) {
    && (Leaving(s) ==> s.stopper != NotCalled)
    && (s.consumer == Swap && s.stopper == NotCalled ==> s.queue != [])
    && (StopperHasNotified(s) && s.flag == Shutdown ==> s.consumer !in {GoSleep, Asleep})
  }

  /** What holds in every interleaving, for every threshold. */
  ghost predicate Inv(s: State) {
    MutexInv(s) && SleepInv(s) && PhaseInv(s) && LogInv(s) && LeaveInv(s)
  }

  lemma ConsumerKeepsControl(s: State, throws: bool)
    requires MutexInv(s) && SleepInv(s) && PhaseInv(s) && ConsumerStep(s, throws).Some?
    ensures var s' := ConsumerStep(s, throws).value; MutexInv(s') && SleepInv(s') && PhaseInv(s')
  {
  }

  lemma ConsumerKeepsLog(s: State, throws: bool)
    requires PhaseInv(s) && LogInv(s) && ConsumerStep(s, throws).Some?
    ensures LogInv(ConsumerStep(s, throws).value)
  {
    if s.consumer in {RunBatch, Finish} && s.batch != [] {
      MoveFirst(s.finished, s.batch, s.queue);
    } else if s.consumer == DrainPop {
      MoveFirst(s.finished, s.queue, []);
    }
  }

  lemma MoveFirst(a: seq<Task>, b: seq<Task>, c: seq<Task>)
    requires b != []
    ensures (a + [b[0]]) + b[1..] + c == a + b + c
  {
    assert [b[0]] + b[1..] == b;
  }

  lemma ConsumerKeepsLeaveInv(s: State, throws: bool)
    requires LeaveInv(s) && ConsumerStep(s, throws).Some?
    ensures LeaveInv(ConsumerStep(s, throws).value)
  {
  }

  lemma StopperKeepsInv(s: State)
    requires Inv(s) && StopperStep(s).Some?
    ensures Inv(StopperStep(s).value)
  {
  }

  lemma ProducerKeepsControl(s: State, threshold: nat, p: nat)
    requires MutexInv(s) && SleepInv(s) && PhaseInv(s)
    requires p < |s.producers| && ProducerStep(s, threshold, p).Some?
    ensures var s' := ProducerStep(s, threshold, p).value; MutexInv(s') && SleepInv(s') && PhaseInv(s')
  {
  }

  lemma ProducerKeepsLeaveInv(s: State, threshold: nat, p: nat)
    requires LeaveInv(s) && p < |s.producers| && ProducerStep(s, threshold, p).Some?
    ensures LeaveInv(ProducerStep(s, threshold, p).value)
  {
  }

  lemma ProducerKeepsLog(s: State, threshold: nat, p: nat)
    requires LogInv(s) && p < |s.producers| && ProducerStep(s, threshold, p).Some?
    ensures LogInv(ProducerStep(s, threshold, p).value)
  {
    if s.producers[p].Pushing? {
      var t := s.producers[p].task;
      assert s.finished + s.batch + (s.queue + [t]) == s.finished + s.batch + s.queue + [t];
    }
  }

  lemma StepKeepsInv(s: State, threshold: nat, l: Label)
    requires Inv(s) && Next(s, threshold, l).Some?
    ensures Inv(Next(s, threshold, l).value)
  {
    match l
    case Consume(throws) =>
      ConsumerKeepsControl(s, throws);
      ConsumerKeepsLog(s, throws);
      ConsumerKeepsLeaveInv(s, throws);
    case Stop => StopperKeepsInv(s);
    case Produce(p) =>
      ProducerKeepsControl(s, threshold, p);
      ProducerKeepsLog(s, threshold, p);
      ProducerKeepsLeaveInv(s, threshold, p);
    case Call(_, _) =>
    case StartCalled =>
    case Wake =>
  }

  lemma {:induction false} RunKeepsInv(n: nat, threshold: nat, labels: seq<Label>)
    ensures Inv(Run(n, threshold, labels))
  {
    if labels != [] {
      RunKeepsInv(n, threshold, labels[..|labels| - 1]);
      var s := Run(n, threshold, labels[..|labels| - 1]);
      if Next(s, threshold, labels[|labels| - 1]).Some? {
        StepKeepsInv(s, threshold, labels[|labels| - 1]);
      }
    }
  }

  // ---- Calls of `Start` that take the flag back -----------------------------------------------

  /** The call takes back the flag that `Shutdown` has set, while the consumer has yet to read it. */
  predicate TakesBack(s: State, l: Label) {
    l == StartCalled && s.stopper != NotCalled && !HasLeft(s.consumer)
  }

  /** `Shutdown` has not been called, or the consumer is leaving. */
  predicate NotTakenBack(s: State) {
    s.stopper == NotCalled || Leaving(s)
  }

  /** In every step: what is taken back is never made good, and only `TakesBack` takes it back. */
  lemma StepTakesBackExactly(s: State, threshold: nat, l: Label)
    requires Inv(s) && Next(s, threshold, l).Some?
    ensures var s' := Next(s, threshold, l).value;
      && (NotTakenBack(s') <==> NotTakenBack(s) && !TakesBack(s, l))
      && (s.stopper != NotCalled ==> s'.stopper != NotCalled)
  {
    match l
    case Consume(throws) => ConsumerKeepsLeaving(s, throws);
    case Produce(p) => ProducerKeepsLeaving(s, threshold, p);
    case Stop =>
    case StartCalled =>
    case Wake =>
    case Call(_, _) =>
  }

  lemma ConsumerKeepsLeaving(s: State, throws: bool)
    requires LeaveInv(s) && ConsumerStep(s, throws).Some?
    ensures var s' := ConsumerStep(s, throws).value; s'.stopper == s.stopper && (Leaving(s') <==> Leaving(s))
  {
  }

  lemma ProducerKeepsLeaving(s: State, threshold: nat, p: nat)
    requires p < |s.producers| && ProducerStep(s, threshold, p).Some?
    ensures var s' := ProducerStep(s, threshold, p).value;
      s'.stopper == s.stopper && (Leaving(s') <==> Leaving(s))
  {
  }

  /** The `p`-th label of a run is such a call. */
  ghost predicate TakenBackAt(n: nat, threshold: nat, labels: seq<Label>, p: nat)
    requires p < |labels|
  {
    TakesBack(Run(n, threshold, labels[..p]), labels[p])
  }

  ghost predicate NeverTakenBack(n: nat, threshold: nat, labels: seq<Label>) {
    forall p :: 0 <= p < |labels| ==> !TakenBackAt(n, threshold, labels, p)
  }

  lemma NeverTakenBackPrefix(n: nat, threshold: nat, labels: seq<Label>)
    requires labels != []
    ensures var m := |labels| - 1;
      NeverTakenBack(n, threshold, labels)
      <==> NeverTakenBack(n, threshold, labels[..m]) && !TakenBackAt(n, threshold, labels, m)
  {
    var m := |labels| - 1;
    forall p | 0 <= p < m
      ensures TakenBackAt(n, threshold, labels[..m], p) <==> TakenBackAt(n, threshold, labels, p)
    {
      assert labels[..m][..p] == labels[..p];
    }
  }

  /** In every run in which `Shutdown` has been called, the consumer is leaving if and only if no call of
      `Start` has taken the flag back. */
  lemma {:induction false} LeavingExactly(n: nat, threshold: nat, labels: seq<Label>)
    ensures NotTakenBack(Run(n, threshold, labels)) <==> NeverTakenBack(n, threshold, labels)
  {
    if labels != [] {
      var m := |labels| - 1;
      var s := Run(n, threshold, labels[..m]);
      LeavingExactly(n, threshold, labels[..m]);
      RunKeepsInv(n, threshold, labels[..m]);
      NeverTakenBackPrefix(n, threshold, labels);
      if Next(s, threshold, labels[m]).Some? {
        StepTakesBackExactly(s, threshold, labels[m]);
      }
    }
  }

  // ---- Main results: safety -----------------------------------------------------------------

  /** No wake-up is lost. In every interleaving, a consumer that is asleep and not notified has
      an empty queue, or the producer that filled it holds the lock and is about to notify. And
      unless a call of `Start` has taken the flag back, `Shutdown` has not yet notified either,
      although it sets the flag without the lock: `join` never waits for a sleeping consumer. */
  lemma NoLostWakeUp(n: nat, threshold: nat, labels: seq<Label>)
    ensures var s := Run(n, threshold, labels);
      && (s.consumer == Asleep ==> s.queue == [] || AboutToNotify(s))
      && (NeverTakenBack(n, threshold, labels) && s.consumer == Asleep ==>
            s.stopper in {NotCalled, FlagSet, Holding})
      && (NeverTakenBack(n, threshold, labels) && s.stopper == Joining ==> s.consumer != Asleep)
  {
    RunKeepsInv(n, threshold, labels);
    LeavingExactly(n, threshold, labels);
  }

  /** Tasks run in the order they were queued, across batches and the drain after shutdown, and
      when the consumer exits everything queued so far has run. */
  lemma FirstInFirstOut(n: nat, threshold: nat, labels: seq<Label>, l: Label)
    ensures var s := Run(n, threshold, labels);
      && s.finished + s.batch + s.queue == s.pushed
      && match Next(s, threshold, l)
         case None => true
         case Some(s') =>
           && (s.consumer != Done && s'.consumer == Done ==> s.finished == s.pushed)
           && (s.consumer == Done ==> s'.consumer == Done && s'.finished == s.finished)
  {
    RunKeepsInv(n, threshold, labels);
  }

  // ---- Building a run -------------------------------------------------------------------------

  lemma RunStep(n: nat, threshold: nat, labels: seq<Label>, l: Label)
    requires Next(Run(n, threshold, labels), threshold, l).Some?
    ensures Run(n, threshold, labels + [l]) == Next(Run(n, threshold, labels), threshold, l).value
  {
    assert (labels + [l])[..|labels|] == labels;
  }

  /** With such a call of `Start` the wake-up can be lost: here `Shutdown` waits for a consumer that sleeps
      for ever, since nothing but a spurious wake-up or another call can move any thread. */
  lemma LateStartLosesWakeUp(n: nat, threshold: nat) returns (labels: seq<Label>)
    ensures |labels| == 10 && labels[..4] == [Stop, Stop, Stop, Stop] && labels[4] == StartCalled
    ensures forall i :: 5 <= i < 10 ==> labels[i].Consume?
    ensures var s := Run(n, threshold, labels);
      && s.stopper == Joining && s.consumer == Asleep && s.flag == Start
      && (forall l: Label :: !l.Wake? && !l.Call? && l != StartCalled ==> Next(s, threshold, l).None?)
  {
    labels := [];
    for i := 0 to 10
      invariant |labels| == i
      invariant forall j ::
        0 <= j < i ==> labels[j] == if j < 4 then Stop else if j == 4 then StartCalled else Consume(false)
      invariant var s := Run(n, threshold, labels);
        && s == Initial(n).(flag := s.flag, owner := s.owner, consumer := s.consumer, stopper := s.stopper)
        && s.flag == (if i == 0 then Init else if i < 5 then Shutdown else Start)
        && s.owner == (if i in {2, 3} then Stopper else if i in {7, 8, 9} then Consumer else Free)
        && s.consumer == (if i <= 5 then Top else [WantLock, EvalQueue, EvalState, GoSleep, Asleep][i - 6])
        && s.stopper == (if i >= 4 then Joining else [NotCalled, FlagSet, Holding, Releasing][i])
    {
      var l := if i < 4 then Stop else if i == 4 then StartCalled else Consume(false);
      RunStep(n, threshold, labels, l);
      labels := labels + [l];
    }
  }

  // ---- Main results: counting and admission -----------------------------------------------------

  /** Queued tasks but for one that has run and is yet to be taken off. */
  function Queued(s: State): nat {
    if s.consumer == DrainPop && s.queue != [] then |s.queue| - 1 else |s.queue|
  }

  /** Accepted tasks that have not finished: queued, in the batch, or on their way. */
  function Pending(s: State): nat {
    Queued(s) + |s.batch| + Total(InFlight, s.producers)
  }

  /** What the counter counts: pending tasks, calls being rejected, tasks that have thrown. */
  function Load(s: State): nat {
    Pending(s) + Total(BeingRejected, s.producers) + s.thrown
  }

  ghost predicate CountInv(s: State) {
    s.counter == Load(s) % TWO_TO_THE_32
  }

  lemma CountOneMore(load: nat)
    ensures Increment(load % TWO_TO_THE_32) == (load + 1) % TWO_TO_THE_32
  {
  }

  lemma CountOneLess(load: nat)
    ensures Decrement((load + 1) % TWO_TO_THE_32) == load % TWO_TO_THE_32
  {
  }

  /** What a step of a producer adds to the load, and to the pending tasks. */
  lemma ProducerChangesLoad(s: State, threshold: nat, p: nat)
    requires PhaseInv(s) && p < |s.producers| && ProducerStep(s, threshold, p).Some?
    ensures var s', pc := ProducerStep(s, threshold, p).value, s.producers[p];
      && Load(s') == Load(s) + (if pc.Checked? then 1 else if pc.Rejecting? then -1 else 0)
      && Pending(s') == Pending(s) + (if pc.Checked? && s'.producers[p].Admitted? then 1 else 0)
  {
    var s' := ProducerStep(s, threshold, p).value;
    TotalUpdate(InFlight, s.producers, p, s'.producers[p]);
    TotalUpdate(BeingRejected, s.producers, p, s'.producers[p]);
    QueuedGrows(s, threshold, p);
  }

  lemma QueuedGrows(s: State, threshold: nat, p: nat)
    requires PhaseInv(s) && p < |s.producers| && ProducerStep(s, threshold, p).Some?
    ensures Queued(ProducerStep(s, threshold, p).value) == Queued(s) + if s.producers[p].Pushing? then 1 else 0
  {
  }

  lemma ProducerKeepsCount(s: State, threshold: nat, p: nat)
    requires PhaseInv(s) && CountInv(s) && p < |s.producers| && ProducerStep(s, threshold, p).Some?
    ensures CountInv(ProducerStep(s, threshold, p).value)
  {
    ProducerChangesLoad(s, threshold, p);
    if s.producers[p].Checked? {
      CountOneMore(Load(s));
    } else if s.producers[p].Rejecting? {
      CountOneLess(Load(ProducerStep(s, threshold, p).value));
    }
  }

  lemma ConsumerKeepsCount(s: State, throws: bool)
    requires PhaseInv(s) && CountInv(s) && ConsumerStep(s, throws).Some?
    ensures CountInv(ConsumerStep(s, throws).value)
  {
    if s.consumer in {Finish, DrainFinish} {
      CountOneLess(Load(s) - 1);
    }
  }

  lemma CallKeepsLoad(s: State, p: nat, t: Task)
    requires p < |s.producers| && s.producers[p] == Idle
    ensures var s' := s.(producers := s.producers[p := Called(t)]); Load(s') == Load(s) && Pending(s') == Pending(s)
  {
    TotalUpdate(InFlight, s.producers, p, Called(t));
    TotalUpdate(BeingRejected, s.producers, p, Called(t));
  }

  lemma StepKeepsCount(s: State, threshold: nat, l: Label)
    requires PhaseInv(s) && CountInv(s) && Next(s, threshold, l).Some?
    ensures CountInv(Next(s, threshold, l).value)
  {
    match l
    case Produce(p) => ProducerKeepsCount(s, threshold, p);
    case Call(p, t) => CallKeepsLoad(s, p, t);
    case Consume(throws) => ConsumerKeepsCount(s, throws);
    case Stop =>
    case StartCalled =>
    case Wake =>
  }

  lemma {:induction false} RunKeepsCount(n: nat, threshold: nat, labels: seq<Label>)
    ensures CountInv(Run(n, threshold, labels))
  {
    if labels == [] {
      TotalOfIdle(InFlight, Initial(n).producers);
      TotalOfIdle(BeingRejected, Initial(n).producers);
    } else {
      RunKeepsCount(n, threshold, labels[..|labels| - 1]);
      RunKeepsInv(n, threshold, labels[..|labels| - 1]);
      var s := Run(n, threshold, labels[..|labels| - 1]);
      if Next(s, threshold, labels[|labels| - 1]).Some? {
        StepKeepsCount(s, threshold, labels[|labels| - 1]);
      }
    }
  }

  /** A producer that is not being rejected leaves room in the bound. */
  lemma {:induction false} TotalAtMostButOne(ps: seq<ProducerPc>, p: nat)
    requires p < |ps| && Weight(BeingRejected, ps[p]) == 0
    ensures Total(BeingRejected, ps) < |ps|
  {
    if p == 0 {
      TotalAtMost(BeingRejected, ps[1..]);
    } else {
      TotalAtMostButOne(ps[1..], p - 1);
    }
  }

  /** Pending and thrown tasks together are within the threshold. */
  predicate WithinThreshold(s: State, threshold: nat) {
    Pending(s) + s.thrown <= threshold
  }

  lemma LoadWithin(s: State, threshold: nat)
    requires threshold + |s.producers| < TWO_TO_THE_32 && CountInv(s) && WithinThreshold(s, threshold)
    ensures s.counter == Load(s) <= threshold + Total(BeingRejected, s.producers) < TWO_TO_THE_32
  {
    TotalAtMost(BeingRejected, s.producers);
  }

  lemma CheckedWithin(s: State, threshold: nat, p: nat)
    requires threshold + |s.producers| < TWO_TO_THE_32 && CountInv(s) && WithinThreshold(s, threshold)
    requires p < |s.producers| && s.producers[p].Checked?
    ensures Increment(s.counter) == Load(s) + 1
  {
    LoadWithin(s, threshold);
    TotalAtMostButOne(s.producers, p);
  }

  lemma ProducerKeepsWithin(s: State, threshold: nat, p: nat)
    requires threshold + |s.producers| < TWO_TO_THE_32
    requires PhaseInv(s) && CountInv(s) && WithinThreshold(s, threshold)
    requires p < |s.producers| && ProducerStep(s, threshold, p).Some?
    ensures WithinThreshold(ProducerStep(s, threshold, p).value, threshold)
  {
    ProducerChangesLoad(s, threshold, p);
    if s.producers[p].Checked? {
      CheckedWithin(s, threshold, p);
      assert Pending(s) + s.thrown <= Load(s);
    }
  }

  lemma StepKeepsWithin(s: State, threshold: nat, l: Label)
    requires threshold + |s.producers| < TWO_TO_THE_32
    requires PhaseInv(s) && CountInv(s) && WithinThreshold(s, threshold) && Next(s, threshold, l).Some?
    ensures WithinThreshold(Next(s, threshold, l).value, threshold)
  {
    match l
    case Produce(p) => ProducerKeepsWithin(s, threshold, p);
    case Call(p, t) => CallKeepsLoad(s, p, t);
    case Consume(_) =>
    case Stop =>
    case StartCalled =>
    case Wake =>
  }

  lemma {:induction false} RunKeepsWithin(n: nat, threshold: nat, labels: seq<Label>)
    requires threshold + n < TWO_TO_THE_32
    ensures WithinThreshold(Run(n, threshold, labels), threshold)
  {
    if labels == [] {
      TotalOfIdle(InFlight, Initial(n).producers);
    } else {
      var before := labels[..|labels| - 1];
      RunKeepsWithin(n, threshold, before);
      RunKeepsCount(n, threshold, before);
      RunKeepsInv(n, threshold, before);
      var s := Run(n, threshold, before);
      if Next(s, threshold, labels[|labels| - 1]).Some? {
        StepKeepsWithin(s, threshold, labels[|labels| - 1]);
      }
    }
  }

  /** The counter counts, modulo 2^32, the accepted tasks that have not finished, the calls being
      rejected, and every task that has thrown. With fewer than `2^32 - threshold` producers it never
      wraps round and exceeds the threshold by at most the calls being rejected; and accepted and
      thrown tasks together stay within the threshold, so `k` thrown tasks leave room for
      `threshold - k` for ever. */
  lemma CounterConserved(n: nat, threshold: nat, labels: seq<Label>)
    ensures var s := Run(n, threshold, labels);
      && s.counter == Load(s) % TWO_TO_THE_32
      && (threshold + n < TWO_TO_THE_32 ==>
            && s.counter == Load(s) <= threshold + Total(BeingRejected, s.producers) < TWO_TO_THE_32
            && Pending(s) <= threshold - s.thrown)
  {
    RunKeepsCount(n, threshold, labels);
    if threshold + n < TWO_TO_THE_32 {
      RunKeepsWithin(n, threshold, labels);
      LoadWithin(Run(n, threshold, labels), threshold);
    }
  }

  lemma AdmittedByLoad(s: State, threshold: nat, p: nat)
    requires CountInv(s) && p < |s.producers| && s.producers[p].Checked?
    requires threshold + |s.producers| < TWO_TO_THE_32 ==> WithinThreshold(s, threshold)
    ensures var admitted := ProducerStep(s, threshold, p).value.producers[p].Admitted?;
      && (admitted <==> (Load(s) + 1) % TWO_TO_THE_32 <= threshold)
      && (threshold + |s.producers| < TWO_TO_THE_32 ==> (admitted <==> Load(s) < threshold))
  {
    CountOneMore(Load(s));
    if threshold + |s.producers| < TWO_TO_THE_32 {
      CheckedWithin(s, threshold, p);
    }
  }

  /** A call is admitted exactly when what the counter counts, this call included, does not exceed the
      threshold modulo 2^32; with few enough producers, exactly when it leaves room. */
  lemma AdmittedExactly(n: nat, threshold: nat, labels: seq<Label>, p: nat)
    requires p < n && Run(n, threshold, labels).producers[p].Checked?
    ensures var s := Run(n, threshold, labels);
      var admitted := ProducerStep(s, threshold, p).value.producers[p].Admitted?;
      && (admitted <==> (Load(s) + 1) % TWO_TO_THE_32 <= threshold)
      && (threshold + n < TWO_TO_THE_32 ==> (admitted <==> Load(s) < threshold))
  {
    RunKeepsCount(n, threshold, labels);
    if threshold + n < TWO_TO_THE_32 {
      RunKeepsWithin(n, threshold, labels);
    }
    AdmittedByLoad(Run(n, threshold, labels), threshold, p);
  }

  /** The first `r` producers are being rejected, the others idle; `m` tasks are queued, and the
      consumer has not moved. */
  ghost predicate Crowded(s: State, n: nat, m: nat, r: nat) {
    && s.owner == Free && s.consumer == Top && s.batch == [] && s.thrown == 0
    && s.counter == m + r && |s.queue| == m && |s.producers| == n
    && forall p :: 0 <= p < n ==> s.producers[p] == if p < r then Rejecting else Idle
  }

  lemma Produces(n: nat, threshold: nat, labels: seq<Label>, p: nat, k: nat) returns (labels': seq<Label>)
    requires p < n && k <= 6
    requires Run(n, threshold, labels).producers[p].Called? && Run(n, threshold, labels).owner == Free
    requires Run(n, threshold, labels).consumer == Top
    requires Increment(Run(n, threshold, labels).counter) <= threshold
    ensures var s, s' := Run(n, threshold, labels), Run(n, threshold, labels');
      var t := s.producers[p].task;
      && s' == s.(owner := s'.owner, producers := s.producers[p := s'.producers[p]],
                  counter := if k < 2 then s.counter else Increment(s.counter),
                  queue := if k < 4 then s.queue else s.queue + [t],
                  pushed := if k < 4 then s.pushed else s.pushed + [t])
      && s'.owner == (if k in {3, 4, 5} then Producer(p) else Free)
      && s'.producers[p]
        == [Called(t), Checked(t), Admitted(t), Pushing(t), Notifying, Unlocking, Idle][k]
  {
    labels' := labels;
    if k > 0 {
      labels' := Produces(n, threshold, labels, p, k - 1);
      RunStep(n, threshold, labels', Produce(p));
      labels' := labels' + [Produce(p)];
    }
  }

  lemma CrowdedOneQueued(s: State, n: nat, m: nat, t: Task)
    requires Crowded(s, n, m, 0) && m + 1 < TWO_TO_THE_32
    ensures Crowded(s.(counter := Increment(s.counter), queue := s.queue + [t], pushed := s.pushed + [t]), n, m + 1, 0)
  {
  }

  lemma QueuesOne(n: nat, threshold: nat, labels: seq<Label>, m: nat) returns (labels': seq<Label>)
    requires 0 < n && m < threshold < TWO_TO_THE_32 && Crowded(Run(n, threshold, labels), n, m, 0)
    ensures Crowded(Run(n, threshold, labels'), n, m + 1, 0)
  {
    var s := Run(n, threshold, labels);
    RunStep(n, threshold, labels, Call(0, 0));
    assert Run(n, threshold, labels + [Call(0, 0)]) == s.(producers := s.producers[0 := Called(0)]);
    labels' := Produces(n, threshold, labels + [Call(0, 0)], 0, 6);
    assert s.producers[0 := Called(0)][0 := Idle] == s.producers;
    assert Run(n, threshold, labels')
      == s.(counter := Increment(s.counter), queue := s.queue + [0], pushed := s.pushed + [0]);
    CrowdedOneQueued(s, n, m, 0);
  }

  /** One producer can queue as many tasks as the threshold allows. */
  lemma {:induction false} FillQueue(n: nat, threshold: nat, m: nat) returns (labels: seq<Label>)
    requires n > 0 && m <= threshold < TWO_TO_THE_32
    ensures Crowded(Run(n, threshold, labels), n, m, 0)
  {
    labels := [];
    if m > 0 {
      labels := FillQueue(n, threshold, m - 1);
      labels := QueuesOne(n, threshold, labels, m - 1);
    }
  }

  lemma IsRejected(n: nat, threshold: nat, labels: seq<Label>, p: nat) returns (labels': seq<Label>)
    requires p < n && Run(n, threshold, labels).producers[p] == Idle
    requires Increment(Run(n, threshold, labels).counter) > threshold
    ensures var s := Run(n, threshold, labels);
      Run(n, threshold, labels') == s.(counter := Increment(s.counter), producers := s.producers[p := Rejecting])
  {
    RunStep(n, threshold, labels, Call(p, 0));
    labels' := labels + [Call(p, 0)];
    RunStep(n, threshold, labels', Produce(p));
    labels' := labels' + [Produce(p)];
    RunStep(n, threshold, labels', Produce(p));
    labels' := labels' + [Produce(p)];
  }

  lemma CrowdedOneMore(s: State, n: nat, m: nat, r: nat)
    requires Crowded(s, n, m, r) && r < n && m + r + 1 < TWO_TO_THE_32
    ensures Crowded(s.(counter := Increment(s.counter), producers := s.producers[r := Rejecting]), n, m, r + 1)
  {
  }

  /** With the queue full, one producer after the other can be on its way out, still counted. */
  lemma {:induction false} CrowdOut(n: nat, threshold: nat, r: nat) returns (labels: seq<Label>)
    requires 0 < n && r <= n && threshold + r < TWO_TO_THE_32
    ensures Crowded(Run(n, threshold, labels), n, threshold, r)
  {
    if r == 0 {
      labels := FillQueue(n, threshold, threshold);
    } else {
      labels := CrowdOut(n, threshold, r - 1);
      CrowdedOneMore(Run(n, threshold, labels), n, threshold, r - 1);
      labels := IsRejected(n, threshold, labels, r - 1);
    }
  }

  /** With `2^32 - threshold` producers the counter wraps round, and one call too many is admitted. */
  lemma CounterWraps(n: nat, threshold: nat) returns (labels: seq<Label>)
    requires threshold < TWO_TO_THE_32 <= threshold + n
    ensures !WithinThreshold(Run(n, threshold, labels), threshold)
  {
    var r := TWO_TO_THE_32 - 1 - threshold;
    labels := CrowdOut(n, threshold, r);
    RunStep(n, threshold, labels, Call(r, 0));
    labels := labels + [Call(r, 0)];
    labels := Produces(n, threshold, labels, r, 2);
    var ps := Run(n, threshold, labels).producers;
    TotalUpdate(InFlight, ps, r, Idle);
  }

  /** The threshold is kept in every interleaving if and only if there are fewer than
      `2^32 - threshold` producers. */
  lemma ThresholdKeptExactly(n: nat, threshold: nat)
    requires threshold < TWO_TO_THE_32
    ensures (forall labels :: WithinThreshold(Run(n, threshold, labels), threshold))
      <==> threshold + n < 4_294_967_296
  {
    if threshold + n < TWO_TO_THE_32 {
      forall labels
        ensures WithinThreshold(Run(n, threshold, labels), threshold)
      {
        RunKeepsWithin(n, threshold, labels);
      }
    } else {
      var labels := CounterWraps(n, threshold);
      assert !WithinThreshold(Run(n, threshold, labels), threshold);
    }
  }

  // ---- Main results: every accepted task is run ----------------------------------------------

  function ConsumerWork(c: ConsumerPc): nat {
    match c
    case RunBatch => 6
    case Finish => 5
    case Top => 5
    case WantLock => 4
    case EvalQueue => 3
    case EvalState => 2
    case Swap => 2
    case GoSleep => 1
    case Asleep => 0
    case Drain => 0
    case DrainFinish => 0
    case DrainPop => 0
    case Done => 0
  }

  /** A bound on the steps before everything queued or on its way has run and the consumer sleeps. */
  function WorkLeftIn(s: State): nat {
    ConsumerWork(s.consumer) + 2 * |s.batch| + 7 * |s.queue| + Total(WorkLeft, s.producers)
  }

  /** A step of the consumer or of a producer, other than the start of a new call. */
  predicate IsWork(l: Label) { l.Consume? || l.Produce? }

  lemma WorkUsesUpSteps(s: State, threshold: nat, l: Label)
    requires Inv(s) && s.stopper == NotCalled && IsWork(l) && Next(s, threshold, l).Some?
    ensures WorkLeftIn(Next(s, threshold, l).value) < WorkLeftIn(s)
    ensures Next(s, threshold, l).value.stopper == NotCalled
  {
    match l
    case Consume(throws) => ConsumerWorks(s, throws);
    case Produce(p) => ProducerWorks(s, threshold, p);
  }

  lemma ConsumerWorks(s: State, throws: bool)
    requires LeaveInv(s) && PhaseInv(s) && s.stopper == NotCalled && ConsumerStep(s, throws).Some?
    ensures WorkLeftIn(ConsumerStep(s, throws).value) < WorkLeftIn(s)
  {
  }

  lemma ProducerWorks(s: State, threshold: nat, p: nat)
    requires p < |s.producers| && ProducerStep(s, threshold, p).Some?
    ensures WorkLeftIn(ProducerStep(s, threshold, p).value) < WorkLeftIn(s)
  {
    TotalUpdate(WorkLeft, s.producers, p, ProducerStep(s, threshold, p).value.producers[p]);
  }

  /** Unless the consumer sleeps and no call is under way, some thread can do work. */
  lemma WorkNeverStuck(s: State, threshold: nat) returns (l: Label)
    requires Inv(s) && s.stopper == NotCalled
    requires s.consumer != Asleep || exists p :: 0 <= p < |s.producers| && s.producers[p] != Idle
    ensures IsWork(l) && Next(s, threshold, l).Some?
  {
    match s.owner
    case Consumer => l := Consume(false);
    case Producer(p) => l := Produce(p);
    case Stopper => assert false;
    case Free =>
      if p :| 0 <= p < |s.producers| && s.producers[p] != Idle {
        l := Produce(p);
      } else {
        l := Consume(false);
      }
  }

  /** Without a shutdown and without relying on spurious wake-ups, everything that is accepted is
      run: if no further call begins, no run is longer than `WorkLeftIn`, and the runs that
      cannot be continued are exactly those that end with the consumer asleep and every call
      returned; then everything ever queued has run. */
  lemma {:induction false} EverythingAcceptedRuns(s: State, threshold: nat, labels: seq<Label>)
    requires Inv(s) && s.stopper == NotCalled
    requires Executable(s, threshold, labels) && forall i :: 0 <= i < |labels| ==> IsWork(labels[i])
    ensures var s' := After(s, threshold, labels);
      var idle := s'.consumer == Asleep && forall p :: 0 <= p < |s'.producers| ==> s'.producers[p] == Idle;
      && |labels| + WorkLeftIn(s') <= WorkLeftIn(s)
      && (idle <==> forall l: Label :: IsWork(l) ==> Next(s', threshold, l).None?)
      && (idle ==> s'.finished == s'.pushed)
    decreases |labels|
  {
    if labels == [] {
      if s.consumer != Asleep || exists p :: 0 <= p < |s.producers| && s.producers[p] != Idle {
        var l := WorkNeverStuck(s, threshold);
        assert Next(s, threshold, l).Some?;
      }
    } else {
      StepKeepsInv(s, threshold, labels[0]);
      WorkUsesUpSteps(s, threshold, labels[0]);
      EverythingAcceptedRuns(Next(s, threshold, labels[0]).value, threshold, labels[1..]);
    }
  }

  // ---- Main results: shutdown terminates ------------------------------------------------------

  function StopperLeft(c: StopperPc): nat {
    match c
    case NotCalled => 5
    case FlagSet => 4
    case Holding => 3
    case Releasing => 2
    case Joining => 1
    case Joined => 0
  }

  function ConsumerLeft(c: ConsumerPc): nat {
    match c
    case GoSleep => 10
    case Asleep => 9
    case WantLock => 8
    case EvalQueue => 7
    case EvalState => 6
    case Swap => 5
    case RunBatch => 4
    case Finish => 3
    case Top => 3
    case Drain => 2
    case DrainFinish => 1
    case DrainPop => 0
    case Done => 0
  }

  /** A bound on the steps that all threads together can still take once the flag is set. */
  function StepsLeftIn(s: State): nat {
    ConsumerLeft(s.consumer) + 2 * |s.batch| + 3 * |s.queue| + StopperLeft(s.stopper)
      + Total(StepsLeft, s.producers)
  }

  lemma ConsumerUsesUpSteps(s: State, throws: bool)
    requires PhaseInv(s) && Leaving(s) && ConsumerStep(s, throws).Some?
    ensures StepsLeftIn(ConsumerStep(s, throws).value) < StepsLeftIn(s)
  {
  }

  lemma ProducerUsesUpSteps(s: State, threshold: nat, p: nat)
    requires p < |s.producers| && ProducerStep(s, threshold, p).Some?
    ensures StepsLeftIn(ProducerStep(s, threshold, p).value) < StepsLeftIn(s)
  {
    TotalUpdate(StepsLeft, s.producers, p, ProducerStep(s, threshold, p).value.producers[p]);
  }

  /** The start of a new call of `Execute` or `Start`. */
  predicate IsNewCall(l: Label) { l.Call? || l.StartCalled? }

  /** Once the consumer is leaving, every step of every thread uses up one of those left: spurious
      wake-ups, tasks that throw and calls of `Execute` already under way included. */
  lemma ShutdownUsesUpSteps(s: State, threshold: nat, l: Label)
    requires Inv(s) && Leaving(s) && !IsNewCall(l) && Next(s, threshold, l).Some?
    ensures StepsLeftIn(Next(s, threshold, l).value) < StepsLeftIn(s)
    ensures Leaving(Next(s, threshold, l).value)
  {
    match l
    case Produce(p) => ProducerUsesUpSteps(s, threshold, p);
    case Consume(throws) => ConsumerUsesUpSteps(s, throws);
    case Stop =>
    case Wake =>
  }

  /** Nothing is left to do: the consumer has exited and been joined, no call is under way. */
  predicate AtRest(s: State) {
    && s.consumer == Done && s.stopper == Joined
    && forall p :: 0 <= p < |s.producers| ==> s.producers[p] == Idle
  }

  /** Once the consumer is leaving some thread can always move, without any spurious wake-up. */
  lemma ShutdownNeverStuck(s: State, threshold: nat) returns (l: Label)
    requires Inv(s) && Leaving(s) && !AtRest(s)
    ensures !IsNewCall(l) && !l.Wake? && Next(s, threshold, l).Some?
  {
    match s.owner
    case Consumer => l := Consume(false);
    case Stopper => l := Stop;
    case Producer(p) => l := Produce(p);
    case Free =>
      if p :| 0 <= p < |s.producers| && s.producers[p] != Idle {
        l := Produce(p);
      } else if s.consumer == Done || s.consumer == Asleep {
        l := Stop;
      } else {
        l := Consume(false);
      }
  }

  /** All labels can be taken one after the other. */
  ghost predicate Executable(s: State, threshold: nat, labels: seq<Label>)
    decreases |labels|
  {
    labels == [] || (Next(s, threshold, labels[0]).Some?
                     && Executable(Next(s, threshold, labels[0]).value, threshold, labels[1..]))
  }

  ghost function After(s: State, threshold: nat, labels: seq<Label>): State
    requires Executable(s, threshold, labels)
    decreases |labels|
  {
    if labels == [] then s else After(Next(s, threshold, labels[0]).value, threshold, labels[1..])
  }

  predicate NoNewCall(labels: seq<Label>) {
    forall i :: 0 <= i < |labels| ==> !IsNewCall(labels[i])
  }

  /** No thread can go on with what it has begun. */
  ghost predicate Stuck(s: State, threshold: nat) {
    forall l: Label :: !IsNewCall(l) ==> Next(s, threshold, l).None?
  }

  /** `Shutdown` terminates, under any scheduler whatever: once the consumer is leaving and no new call
      begins, no run is longer than `StepsLeftIn`, and the runs that cannot be continued are
      exactly those that end with the consumer exited and joined and every call returned. */
  lemma {:induction false} ShutdownTerminates(s: State, threshold: nat, labels: seq<Label>)
    requires Inv(s) && Leaving(s) && Executable(s, threshold, labels) && NoNewCall(labels)
    ensures var s' := After(s, threshold, labels);
      && |labels| + StepsLeftIn(s') <= StepsLeftIn(s)
      && Inv(s') && Leaving(s')
      && (AtRest(s') <==> Stuck(s', threshold))
    decreases |labels|
  {
    if labels == [] {
      if !AtRest(s) {
        var l := ShutdownNeverStuck(s, threshold);
        assert Next(s, threshold, l).Some?;
      }
    } else {
      StepKeepsInv(s, threshold, labels[0]);
      ShutdownUsesUpSteps(s, threshold, labels[0]);
      ShutdownTerminates(Next(s, threshold, labels[0]).value, threshold, labels[1..]);
    }
  }

  // ---- Main results: when shutdown returns ------------------------------------------------------

  /** Once the flag has been taken back, no continuation whatever, new calls and spurious wake-ups
      included, lets `Shutdown` return. */
  lemma {:induction false} TakenBackForEver(s: State, threshold: nat, labels: seq<Label>)
    requires Inv(s) && !NotTakenBack(s) && Executable(s, threshold, labels)
    ensures !NotTakenBack(After(s, threshold, labels)) && After(s, threshold, labels).stopper != Joined
    decreases |labels|
  {
    if labels != [] {
      StepKeepsInv(s, threshold, labels[0]);
      StepTakesBackExactly(s, threshold, labels[0]);
      TakenBackForEver(Next(s, threshold, labels[0]).value, threshold, labels[1..]);
    }
  }

  /** A consumer that is leaving can be brought to rest. */
  lemma {:induction false} CanComeToRest(s: State, threshold: nat) returns (labels: seq<Label>)
    requires Inv(s) && Leaving(s)
    ensures Executable(s, threshold, labels) && AtRest(After(s, threshold, labels))
    decreases StepsLeftIn(s)
  {
    labels := [];
    if !AtRest(s) {
      var l := ShutdownNeverStuck(s, threshold);
      StepKeepsInv(s, threshold, l);
      ShutdownUsesUpSteps(s, threshold, l);
      var more := CanComeToRest(Next(s, threshold, l).value, threshold);
      labels := [l] + more;
      assert labels[0] == l && labels[1..] == more;
    }
  }

  /** Some continuation lets `Shutdown` return. */
  ghost predicate CanReturn(s: State, threshold: nat) {
    exists more: seq<Label> :: Executable(s, threshold, more) && After(s, threshold, more).stopper == Joined
  }

  /** Whatever the scheduler does, without new calls the threads come to rest, `Shutdown` returned,
      within a number of steps known beforehand. */
  ghost predicate MustReturn(s: State, threshold: nat) {
    forall more: seq<Label> :: Executable(s, threshold, more) && NoNewCall(more) ==>
      && |more| <= StepsLeftIn(s)
      && (Stuck(After(s, threshold, more), threshold) ==> AtRest(After(s, threshold, more)))
  }

  /** In every run in which `Shutdown` has been called: if no call of `Start` has taken the flag back,
      `Shutdown` returns under every scheduler; and if one has, under none. */
  lemma ShutdownReturnsExactly(n: nat, threshold: nat, labels: seq<Label>)
    requires Run(n, threshold, labels).stopper != NotCalled
    ensures var s := Run(n, threshold, labels);
      && (CanReturn(s, threshold) <==> NeverTakenBack(n, threshold, labels))
      && (MustReturn(s, threshold) <==> NeverTakenBack(n, threshold, labels))
  {
    var s := Run(n, threshold, labels);
    RunKeepsInv(n, threshold, labels);
    LeavingExactly(n, threshold, labels);
    if Leaving(s) {
      LeavingReturns(s, threshold);
    } else {
      TakenBackNeverReturns(s, threshold);
    }
  }

  lemma LeavingReturns(s: State, threshold: nat)
    requires Inv(s) && Leaving(s)
    ensures CanReturn(s, threshold) && MustReturn(s, threshold)
  {
    var labels := CanComeToRest(s, threshold);
    assert Executable(s, threshold, labels) && After(s, threshold, labels).stopper == Joined;
    forall more | Executable(s, threshold, more) && NoNewCall(more)
      ensures |more| <= StepsLeftIn(s)
      ensures Stuck(After(s, threshold, more), threshold) ==> AtRest(After(s, threshold, more))
    {
      ShutdownTerminates(s, threshold, more);
    }
  }

  lemma TakenBackNeverReturns(s: State, threshold: nat)
    requires Inv(s) && !NotTakenBack(s)
    ensures !CanReturn(s, threshold) && !MustReturn(s, threshold)
  {
    forall more | Executable(s, threshold, more)
      ensures After(s, threshold, more).stopper != Joined
    {
      TakenBackForEver(s, threshold, more);
    }
    var more := LongestRun(s, threshold, StepsLeftIn(s));
    assert NoNewCall(more) && !AtRest(After(s, threshold, more));
  }

  /** A run without new calls that cannot be continued, or is longer than `bound`. */
  lemma {:induction false} LongestRun(s: State, threshold: nat, bound: nat) returns (labels: seq<Label>)
    ensures Executable(s, threshold, labels) && NoNewCall(labels)
    ensures |labels| > bound || Stuck(After(s, threshold, labels), threshold)
    decreases bound
  {
    labels := [];
    if !Stuck(s, threshold) {
      var l: Label :| !IsNewCall(l) && Next(s, threshold, l).Some?;
      var more := [];
      if bound > 0 {
        more := LongestRun(Next(s, threshold, l).value, threshold, bound - 1);
      }
      labels := [l] + more;
      assert labels[0] == l && labels[1..] == more;
    }
  }
}
