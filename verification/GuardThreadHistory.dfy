/** The guard thread read off the past of a run: what became of the task of every call, what a batch
    takes, and which tasks threw. */
module GuardThreadHistory {
  import opened Basics
  import opened GuardThread

  // ---- What becomes of a call ---------------------------------------------------------------------

  /** The task a producer still has in its hands. */
  function Carried(pc: ProducerPc): seq<Task> {
    match pc
    case Called(t) => [t]
    case Checked(t) => [t]
    case Admitted(t) => [t]
    case Pushing(t) => [t]
    case Idle => []
    case Rejecting => []
    case Notifying => []
    case Unlocking => []
  }

  /** The task a label hands to producer `p`, if it begins a call of it. */
  function Begun(s: State, l: Label, p: nat): seq<Task>
    requires p < |s.producers|
  {
    if l.Call? && l.p == p && s.producers[p] == Idle then [l.task] else []
  }

  /** The tasks of the calls producer `p` has begun, in order. */
  ghost function CallsOf(n: nat, threshold: nat, labels: seq<Label>, p: nat): seq<Task>
    requires p < n
  {
    if labels == [] then []
    else
      var before := labels[..|labels| - 1];
      CallsOf(n, threshold, before, p) + Begun(Run(n, threshold, before), labels[|labels| - 1], p)
  }

  /** Producer `p` has pushed the task, or its call was rejected. */
  datatype Settled = Settled(p: nat, task: Task, pushed: bool)

  /** What a step from `s` to `s'` settles: the producer that moved has put a task in the queue, or has
      gone from carrying one to being rejected. */
  function Settles(s: State, s': State, l: Label): seq<Settled>
    requires |s.producers| == |s'.producers|
  {
    if !l.Produce? || l.p >= |s.producers| then []
    else if |s'.pushed| > |s.pushed| then [Settled(l.p, s'.pushed[|s.pushed|], true)]
    else if s'.producers[l.p] == Rejecting && Carried(s.producers[l.p]) != [] then
      [Settled(l.p, Carried(s.producers[l.p])[0], false)]
    else []
  }

  ghost function History(n: nat, threshold: nat, labels: seq<Label>): seq<Settled> {
    if labels == [] then []
    else
      var before := labels[..|labels| - 1];
      History(n, threshold, before)
        + Settles(Run(n, threshold, before), Run(n, threshold, labels), labels[|labels| - 1])
  }

  function TasksOf(h: seq<Settled>, p: nat): seq<Task> {
    if h == [] then []
    else
      var last := h[|h| - 1];
      TasksOf(h[..|h| - 1], p) + if last.p == p then [last.task] else []
  }

  function PushedIn(h: seq<Settled>): seq<Task> {
    if h == [] then []
    else
      var last := h[|h| - 1];
      PushedIn(h[..|h| - 1]) + if last.pushed then [last.task] else []
  }

  lemma HistoryAppend(h: seq<Settled>, more: seq<Settled>, p: nat)
    requires |more| <= 1
    ensures TasksOf(h + more, p) == TasksOf(h, p) + TasksOf(more, p)
    ensures PushedIn(h + more) == PushedIn(h) + PushedIn(more)
  {
    if more == [] {
      assert h + more == h;
    } else {
      assert (h + more)[..|h|] == h && more[..0] == [];
    }
  }

  /** What a step from `s` to `s'` does to the task in the hands of producer `p`. */
  ghost predicate SettlesFor(s: State, s': State, l: Label, p: nat)
    requires p < |s.producers| == |s'.producers|
  {
    Carried(s.producers[p]) + Begun(s, l, p) == TasksOf(Settles(s, s', l), p) + Carried(s'.producers[p])
  }

  lemma ProducerSettles(s: State, threshold: nat, q: nat, p: nat)
    requires p < |s.producers| && q < |s.producers| && ProducerStep(s, threshold, q).Some?
    ensures var s' := ProducerStep(s, threshold, q).value;
      && SettlesFor(s, s', Produce(q), p)
      && s'.pushed == s.pushed + PushedIn(Settles(s, s', Produce(q)))
  {
    var settled := Settles(s, ProducerStep(s, threshold, q).value, Produce(q));
    assert settled != [] ==> settled[..0] == [];
  }

  lemma ConsumerSettles(s: State, throws: bool, p: nat)
    requires p < |s.producers| && ConsumerStep(s, throws).Some?
    ensures var s' := ConsumerStep(s, throws).value;
      s'.producers == s.producers && s'.pushed == s.pushed && SettlesFor(s, s', Consume(throws), p)
  {
  }

  lemma StepSettles(s: State, threshold: nat, l: Label, p: nat)
    requires Next(s, threshold, l).Some? && p < |s.producers|
    ensures var s' := Next(s, threshold, l).value;
      |s'.producers| == |s.producers| && SettlesFor(s, s', l, p)
  {
    match l
    case Produce(q) => ProducerSettles(s, threshold, q, p);
    case Consume(throws) => ConsumerSettles(s, throws, p);
    case Call(_, _) =>
    case Stop =>
    case StartCalled =>
    case Wake =>
  }

  lemma Regroup(a: seq<Task>, b: seq<Task>, c: seq<Task>, d: seq<Task>, e: seq<Task>)
    requires b + c == d + e
    ensures (a + b) + c == (a + d) + e
  {
    assert (a + b) + c == a + (b + c) && (a + d) + e == a + (d + e);
  }

  /** In every interleaving the task of every call is the one that is pushed, rejected or still on its
      way: for each producer the tasks of its calls are, in order, those settled and then the one it
      carries; and what has been pushed are, in order, the settled ones that were not rejected. */
  lemma {:induction false} EveryCallSettled(n: nat, threshold: nat, labels: seq<Label>, p: nat)
    requires p < n
    ensures var s, h := Run(n, threshold, labels), History(n, threshold, labels);
      && CallsOf(n, threshold, labels, p) == TasksOf(h, p) + Carried(s.producers[p])
      && s.pushed == PushedIn(h)
  {
    PushedAreSettled(n, threshold, labels);
    if labels != [] {
      var before, l := labels[..|labels| - 1], labels[|labels| - 1];
      EveryCallSettled(n, threshold, before, p);
      var s, h := Run(n, threshold, before), History(n, threshold, before);
      var settled := Settles(s, Run(n, threshold, labels), l);
      HistoryAppend(h, settled, p);
      if Next(s, threshold, l).Some? {
        StepSettles(s, threshold, l, p);
        Regroup(TasksOf(h, p), Carried(s.producers[p]), Begun(s, l, p), TasksOf(settled, p),
                Carried(Run(n, threshold, labels).producers[p]));
      } else {
        NothingMoves(s, threshold, l, p);
      }
    }
  }

  lemma {:induction false} PushedAreSettled(n: nat, threshold: nat, labels: seq<Label>)
    ensures Run(n, threshold, labels).pushed == PushedIn(History(n, threshold, labels))
  {
    if labels != [] {
      var before, l := labels[..|labels| - 1], labels[|labels| - 1];
      PushedAreSettled(n, threshold, before);
      var s := Run(n, threshold, before);
      HistoryAppend(History(n, threshold, before), Settles(s, Run(n, threshold, labels), l), 0);
      if Next(s, threshold, l).Some? {
        PushesSettled(s, threshold, l);
      }
    }
  }

  lemma PushesSettled(s: State, threshold: nat, l: Label)
    requires Next(s, threshold, l).Some?
    ensures var s' := Next(s, threshold, l).value;
      |s'.producers| == |s.producers| && s'.pushed == s.pushed + PushedIn(Settles(s, s', l))
  {
    match l
    case Produce(p) => ProducerSettles(s, threshold, p, p);
    case Consume(_) =>
    case Call(_, _) =>
    case Stop =>
    case StartCalled =>
    case Wake =>
  }

  lemma NothingMoves(s: State, threshold: nat, l: Label, p: nat)
    requires Next(s, threshold, l).None? && p < |s.producers|
    ensures Begun(s, l, p) == [] && Settles(s, s, l) == []
  {
  }

  // ---- All calls together -----------------------------------------------------------------------------

  /** How many calls were begun with task `t`. */
  ghost function CallCount(n: nat, threshold: nat, labels: seq<Label>, t: Task): nat {
    if labels == [] then 0
    else
      var before, l := labels[..|labels| - 1], labels[|labels| - 1];
      CallCount(n, threshold, before, t)
        + if l.Call? && l.p < n && Begun(Run(n, threshold, before), l, l.p) == [t] then 1 else 0
  }

  /** How many of what was settled were calls with task `t` that were pushed, or rejected. */
  function SettledCount(h: seq<Settled>, t: Task, pushed: bool): nat {
    if h == [] then 0
    else
      var last := h[|h| - 1];
      SettledCount(h[..|h| - 1], t, pushed) + if last.task == t && last.pushed == pushed then 1 else 0
  }

  function Has(tasks: seq<Task>, t: Task): nat {
    if tasks == [t] then 1 else 0
  }

  function CarriedCount(ps: seq<ProducerPc>, t: Task): nat {
    if ps == [] then 0 else Has(Carried(ps[0]), t) + CarriedCount(ps[1..], t)
  }

  lemma {:induction false} CarriedUpdate(ps: seq<ProducerPc>, p: nat, pc: ProducerPc, t: Task)
    requires p < |ps|
    ensures CarriedCount(ps[p := pc], t) + Has(Carried(ps[p]), t)
      == CarriedCount(ps, t) + Has(Carried(pc), t)
  {
    if p == 0 {
      assert ps[p := pc][1..] == ps[1..];
    } else {
      assert ps[p := pc][1..] == ps[1..][p - 1 := pc];
      CarriedUpdate(ps[1..], p - 1, pc, t);
    }
  }

  lemma {:induction false} NoneCarried(ps: seq<ProducerPc>, t: Task)
    requires forall p :: 0 <= p < |ps| ==> ps[p] == Idle
    ensures CarriedCount(ps, t) == 0
  {
    if ps != [] {
      NoneCarried(ps[1..], t);
    }
  }

  lemma SettledAppend(h: seq<Settled>, more: seq<Settled>, t: Task, pushed: bool)
    requires |more| <= 1
    ensures SettledCount(h + more, t, pushed) == SettledCount(h, t, pushed)
      + if more != [] && more[0].task == t && more[0].pushed == pushed then 1 else 0
  {
    if more == [] {
      assert h + more == h;
    } else {
      assert (h + more)[..|h|] == h;
    }
  }

  /** What a producer's step takes out of its hands is settled. */
  lemma ProducerHands(s: State, threshold: nat, p: nat, t: Task)
    requires p < |s.producers| && ProducerStep(s, threshold, p).Some?
    ensures var s' := ProducerStep(s, threshold, p).value;
      var settled := Settles(s, s', Produce(p));
      Has(Carried(s.producers[p]), t)
      == Has(Carried(s'.producers[p]), t) + (if settled != [] && settled[0].task == t then 1 else 0)
  {
  }

  lemma ProducerAccounts(s: State, threshold: nat, p: nat, t: Task)
    requires p < |s.producers| && ProducerStep(s, threshold, p).Some?
    ensures var s' := ProducerStep(s, threshold, p).value;
      var settled := Settles(s, s', Produce(p));
      CarriedCount(s.producers, t)
      == CarriedCount(s'.producers, t) + (if settled != [] && settled[0].task == t then 1 else 0)
  {
    ProducerHands(s, threshold, p, t);
    CarriedUpdate(s.producers, p, ProducerStep(s, threshold, p).value.producers[p], t);
  }

  /** The calls a step begins are those it adds to what is carried or settled. */
  lemma StepAccounts(s: State, threshold: nat, l: Label, t: Task)
    requires Next(s, threshold, l).Some?
    ensures var s' := Next(s, threshold, l).value;
      && |s'.producers| == |s.producers|
      && var settled := Settles(s, s', l);
        CarriedCount(s.producers, t) + (if l.Call? && l.task == t then 1 else 0)
        == CarriedCount(s'.producers, t) + (if settled != [] && settled[0].task == t then 1 else 0)
  {
    match l
    case Produce(p) => ProducerAccounts(s, threshold, p, t);
    case Call(p, task) => CarriedUpdate(s.producers, p, Called(task), t);
    case Consume(throws) => ConsumerCarriesNothing(s, throws);
    case Stop =>
    case StartCalled =>
    case Wake =>
  }

  lemma ConsumerCarriesNothing(s: State, throws: bool)
    requires ConsumerStep(s, throws).Some?
    ensures ConsumerStep(s, throws).value.producers == s.producers
  {
  }

  lemma {:induction false} PushedCount(h: seq<Settled>, t: Task)
    ensures SettledCount(h, t, true) == multiset(PushedIn(h))[t]
  {
    if h != [] {
      PushedCount(h[..|h| - 1], t);
    }
  }

  lemma {:induction false} CallsAreSettledOrCarried(n: nat, threshold: nat, labels: seq<Label>, t: Task)
    ensures var s, h := Run(n, threshold, labels), History(n, threshold, labels);
      CallCount(n, threshold, labels, t)
      == SettledCount(h, t, true) + SettledCount(h, t, false) + CarriedCount(s.producers, t)
  {
    if labels == [] {
      NoneCarried(Initial(n).producers, t);
    } else {
      var before, l := labels[..|labels| - 1], labels[|labels| - 1];
      CallsAreSettledOrCarried(n, threshold, before, t);
      var s, s', h := Run(n, threshold, before), Run(n, threshold, labels), History(n, threshold, before);
      SettledAppend(h, Settles(s, s', l), t, true);
      SettledAppend(h, Settles(s, s', l), t, false);
      if Next(s, threshold, l).Some? {
        StepAccounts(s, threshold, l, t);
      } else if l.Call? && l.p < n {
        NothingMoves(s, threshold, l, l.p);
      } else if n > 0 {
        NothingMoves(s, threshold, l, 0);
      }
    }
  }

  /** In every interleaving every task was given in a call exactly as often as it was pushed, was
      rejected and is still on its way. */
  lemma EveryCallAccountedFor(n: nat, threshold: nat, labels: seq<Label>, t: Task)
    ensures var s, h := Run(n, threshold, labels), History(n, threshold, labels);
      CallCount(n, threshold, labels, t)
      == multiset(s.pushed)[t] + SettledCount(h, t, false) + CarriedCount(s.producers, t)
  {
    CallsAreSettledOrCarried(n, threshold, labels, t);
    PushedAreSettled(n, threshold, labels);
    PushedCount(History(n, threshold, labels), t);
  }

  // ---- What a batch takes ---------------------------------------------------------------------------

  /** The tasks pushed since the consumer last swapped the queue for its own. */
  ghost function PushedSinceSwap(n: nat, threshold: nat, labels: seq<Label>): seq<Task> {
    if labels == [] then []
    else
      var before := labels[..|labels| - 1];
      var s, s' := Run(n, threshold, before), Run(n, threshold, labels);
      if s.consumer == Swap && s'.consumer != Swap then []
      else PushedSinceSwap(n, threshold, before) + if |s.pushed| <= |s'.pushed| then s'.pushed[|s.pushed|..] else []
  }

  ghost predicate Queues(s: State, s': State) {
    && !HasLeft(s.consumer)
    && if s.consumer == Swap && s'.consumer != Swap then s'.queue == [] && s'.batch == s.queue
       else |s.pushed| <= |s'.pushed| && s'.queue == s.queue + s'.pushed[|s.pushed|..]
  }

  lemma ConsumerQueues(s: State, throws: bool)
    requires PhaseInv(s) && ConsumerStep(s, throws).Some? && !HasLeft(ConsumerStep(s, throws).value.consumer)
    ensures Queues(s, ConsumerStep(s, throws).value)
  {
  }

  lemma ProducerQueues(s: State, threshold: nat, p: nat)
    requires p < |s.producers| && ProducerStep(s, threshold, p).Some?
    requires MutexInv(s) && !HasLeft(s.consumer)
    ensures Queues(s, ProducerStep(s, threshold, p).value)
  {
  }

  lemma StepQueues(s: State, threshold: nat, l: Label)
    requires Inv(s) && Next(s, threshold, l).Some? && !HasLeft(Next(s, threshold, l).value.consumer)
    ensures Queues(s, Next(s, threshold, l).value)
  {
    match l
    case Produce(p) => ProducerQueues(s, threshold, p);
    case Consume(throws) => ConsumerQueues(s, throws);
    case Call(_, _) =>
    case Stop =>
    case StartCalled =>
    case Wake =>
  }

  /** A batch is the whole queue: in every interleaving, until the consumer leaves its main loop, the
      queue holds exactly what was pushed since its last batch was taken. */
  lemma {:induction false} BatchTakesAll(n: nat, threshold: nat, labels: seq<Label>)
    ensures !HasLeft(Run(n, threshold, labels).consumer) ==>
      Run(n, threshold, labels).queue == PushedSinceSwap(n, threshold, labels)
  {
    if labels != [] {
      var before, l := labels[..|labels| - 1], labels[|labels| - 1];
      BatchTakesAll(n, threshold, before);
      RunKeepsInv(n, threshold, before);
      var s := Run(n, threshold, before);
      if Next(s, threshold, l).Some? && !HasLeft(Next(s, threshold, l).value.consumer) {
        StepQueues(s, threshold, l);
      }
    }
  }

  // ---- Tasks that throw -----------------------------------------------------------------------------

  /** The step runs a task, and the task throws. */
  predicate RunsAndThrows(s: State, l: Label) {
    l == Consume(true) && ((s.consumer == RunBatch && s.batch != []) || (s.consumer == Drain && s.queue != []))
  }

  ghost function ThrownIn(n: nat, threshold: nat, labels: seq<Label>): nat {
    if labels == [] then 0
    else
      var before := labels[..|labels| - 1];
      ThrownIn(n, threshold, before)
        + if RunsAndThrows(Run(n, threshold, before), labels[|labels| - 1]) then 1 else 0
  }

  lemma StepThrows(s: State, threshold: nat, l: Label)
    ensures match Next(s, threshold, l)
            case None => !RunsAndThrows(s, l)
            case Some(s') => s'.thrown == s.thrown + if RunsAndThrows(s, l) then 1 else 0
  {
  }

  /** What the counter keeps counting for ever are exactly the tasks that threw, in a batch or in the
      drain. */
  lemma {:induction false} ThrownExactly(n: nat, threshold: nat, labels: seq<Label>)
    ensures Run(n, threshold, labels).thrown == ThrownIn(n, threshold, labels)
  {
    if labels != [] {
      var before := labels[..|labels| - 1];
      ThrownExactly(n, threshold, before);
      StepThrows(Run(n, threshold, before), threshold, labels[|labels| - 1]);
    }
  }

  // ---- Spurious wake-ups ------------------------------------------------------------------------------

  /** A consumer with nothing to do that wakes for no reason goes back to sleep, and nothing has
      changed. */
  lemma SpuriousWakeUpIsHarmless(s: State, threshold: nat)
    requires s.consumer == Asleep && s.owner == Free && s.queue == [] && s.flag != Shutdown
    ensures var again := [Wake, Consume(false), Consume(false), Consume(false), Consume(false)];
      Executable(s, threshold, again) && After(s, threshold, again) == s
  {
    var s1 := s.(consumer := WantLock);
    var s2 := s.(consumer := EvalQueue, owner := Consumer);
    var s3 := s.(consumer := EvalState, owner := Consumer);
    var s4 := s.(consumer := GoSleep, owner := Consumer);
    var c := Consume(false);
    assert Next(s4, threshold, c) == Some(s);
    assert After(s4, threshold, [c]) == s && After(s3, threshold, [c, c]) == s by {
      assert [c, c][1..] == [c];
    }
    assert [c, c, c][1..] == [c, c] && [c, c, c, c][1..] == [c, c, c];
    assert After(s2, threshold, [c, c, c]) == s;
    assert After(s1, threshold, [c, c, c, c]) == s;
    assert [Wake, c, c, c, c][1..] == [c, c, c, c];
  }
}
