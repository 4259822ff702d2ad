/** The state of the timing wheel read off the past of a run: what a call of `ExecuteAt` records, which
    lists have been counted and which is being delivered, and when the timer loop ends. */
module TimeWheelHistory {
  import opened Basics
  import opened WheelArithmetic
  import opened TimingWheel
  import opened TimeWheelSpec
  import opened TimeWheelSchedule
  import opened TimeWheelClock
  import opened TimeWheelDeadlines

  // ---- Calls ------------------------------------------------------------------------------------

  /** The time the executor takes a request for `tp` to be for: a time before the start wraps round. */
  function TimeTaken(cfg: Config, tp: uint64): int {
    if tp >= cfg.start then tp else tp + TWO_TO_THE_64
  }

  lemma TimeTakenInTick(cfg: Config, tp: uint64)
    requires cfg.dt > 0
    ensures var v := VirtualTime(cfg.start, tp);
      && v == TimeTaken(cfg, tp) - cfg.start
      && TickStart(cfg, v / cfg.dt) <= TimeTaken(cfg, tp) < TickStart(cfg, v / cfg.dt + 1)
  {
    RemainderIs(tp - cfg.start, TWO_TO_THE_64, if tp >= cfg.start then 0 else -1);
    var v := VirtualTime(cfg.start, tp);
    assert v == (v / cfg.dt) * cfg.dt + v % cfg.dt;
    NextTickStart(cfg, v / cfg.dt);
  }

  lemma InsertRecords(cfg: Config, e: Exec, tp: uint64, task: Task)
    requires cfg.dt > 0 && WellFormed(e.wheels)
    ensures var e' := Insert(cfg, e, tp, task);
      && (e.tick, e.delivering, e.handed, e.lost) == (e'.tick, e'.delivering, e'.handed, e'.lost)
      && if TimeTaken(cfg, tp) < TickStart(cfg, e.tick) then e' == e
         else RecordedLast(cfg, e, e'.accepted, tp, task)
  {
    TimeTakenInTick(cfg, tp);
    var v := VirtualTime(cfg.start, tp);
    if v >= e.tick * cfg.dt {
      VirtualTimeTick(v, cfg.dt, e.tick);
    }
  }

  /** The log has grown by the task asked for, under the tick that contains its time. */
  ghost predicate RecordedLast(cfg: Config, e: Exec, log: seq<Insertion>, tp: uint64, task: Task) {
    && |log| == |e.accepted| + 1 && log[..|e.accepted|] == e.accepted
    && var ins := log[|e.accepted|];
      && ins.tick == e.tick && ins.delivering == e.delivering && ins.entry.task == task
      && TickStart(cfg, ins.entry.tickCount) <= TimeTaken(cfg, tp) < TickStart(cfg, ins.entry.tickCount + 1)
  }

  /** In every run a call of `ExecuteAt` is rejected, and then changes nothing, exactly if the time it is
      for lies before the current tick; otherwise it records the task it was given, for the tick that
      contains that time. */
  lemma CallRecorded(cfg: Config, evs: seq<Event>, tp: uint64, task: Task)
    requires ValidConfig(cfg) && Run(cfg, evs).Some?
    ensures Run(cfg, evs + [ExecuteAt(tp, task)]).Some?
    ensures var e, e' := Run(cfg, evs).value, Run(cfg, evs + [ExecuteAt(tp, task)]).value;
      && (e.tick, e.delivering, e.handed, e.lost) == (e'.tick, e'.delivering, e'.handed, e'.lost)
      && if TimeTaken(cfg, tp) < cfg.start + e.tick * cfg.dt then e' == e
         else RecordedLast(cfg, e, e'.accepted, tp, task)
  {
    RunStep(cfg, evs, ExecuteAt(tp, task));
    InsertRecords(cfg, Run(cfg, evs).value, tp, task);
  }

  /** With the clock, an accepted call also records the time it was given. */
  lemma CallTimed(cfg: Config, evs: seq<ClockedEvent>, tp: uint64, task: Task)
    requires ValidConfig(cfg) && ClockedRun(cfg, evs).Some?
    ensures ClockedRun(cfg, evs + [Does(ExecuteAt(tp, task))]).Some?
    ensures var c, c' := ClockedRun(cfg, evs).value, ClockedRun(cfg, evs + [Does(ExecuteAt(tp, task))]).value;
      && (c.lastLoop, c.slept, c.stopping, c.deadlines) == (c'.lastLoop, c'.slept, c'.stopping, c'.deadlines)
      && if TimeTaken(cfg, tp) < cfg.start + c.exec.tick * cfg.dt then c' == c
         else RecordedLast(cfg, c.exec, c'.exec.accepted, tp, task) && c'.times == c.times + [tp]
  {
    ClockedRunStep(cfg, evs, Does(ExecuteAt(tp, task)));
    InsertRecords(cfg, ClockedRun(cfg, evs).value.exec, tp, task);
  }

  // ---- Delivery and counting ----------------------------------------------------------------------

  /** In every run that goes on, a tick takes one list unless one is being delivered; nothing else
      takes any. */
  lemma TickTakesOne(cfg: Config, evs: seq<Event>, ev: Event)
    requires ValidConfig(cfg) && Run(cfg, evs + [ev]).Some?
    ensures Run(cfg, evs).Some?
    ensures var h, h' := Run(cfg, evs).value.handed, Run(cfg, evs + [ev]).value.handed;
      if ev == TimerTick && !Run(cfg, evs).value.delivering then |h'| == |h| + 1 && h'[..|h|] == h else h' == h
  {
    assert (evs + [ev])[..|evs|] == evs;
  }

  lemma {:induction false} HandedGrows(cfg: Config, evs: seq<Event>, p: nat)
    requires ValidConfig(cfg) && Run(cfg, evs).Some? && p <= |evs|
    ensures Run(cfg, evs[..p]).Some? && Run(cfg, evs[..p]).value.handed <= Run(cfg, evs).value.handed
  {
    if p == |evs| {
      assert evs[..p] == evs;
    } else {
      var m := |evs| - 1;
      HandedGrows(cfg, evs[..m], p);
      assert evs[..m][..p] == evs[..p] && evs[..m] + [evs[m]] == evs;
      TickTakesOne(cfg, evs[..m], evs[m]);
    }
  }

  /** Event `p` says that tasks have finished, and list `k` was the last one handed out before. */
  ghost predicate FinishedAt(cfg: Config, evs: seq<Event>, p: nat, k: nat)
    requires ValidConfig(cfg) && p < |evs|
  {
    && evs[p] == TasksFinished && Run(cfg, evs[..p]).Some?
    && |Run(cfg, evs[..p]).value.handed| == k + 1
  }

  ghost predicate Finished(cfg: Config, evs: seq<Event>, k: nat)
    requires ValidConfig(cfg)
  {
    exists p :: 0 <= p < |evs| && FinishedAt(cfg, evs, p, k)
  }

  /** List `k` was empty, or its tasks have finished. */
  ghost predicate Delivered(cfg: Config, evs: seq<Event>, k: nat)
    requires ValidConfig(cfg) && Run(cfg, evs).Some? && k < |Run(cfg, evs).value.handed|
  {
    Run(cfg, evs).value.handed[k] == [] || Finished(cfg, evs, k)
  }

  lemma FinishedAtPrefix(cfg: Config, evs: seq<Event>, m: nat, p: nat, k: nat)
    requires ValidConfig(cfg) && p < m <= |evs|
    ensures FinishedAt(cfg, evs[..m], p, k) <==> FinishedAt(cfg, evs, p, k)
  {
    assert evs[..m][..p] == evs[..p];
  }

  lemma FinishedAfter(cfg: Config, evs: seq<Event>, k: nat)
    requires ValidConfig(cfg) && evs != []
    ensures Finished(cfg, evs, k)
      <==> Finished(cfg, evs[..|evs| - 1], k) || FinishedAt(cfg, evs, |evs| - 1, k)
  {
    var m := |evs| - 1;
    forall p | 0 <= p < m
      ensures FinishedAt(cfg, evs[..m], p, k) <==> FinishedAt(cfg, evs, p, k)
    {
      FinishedAtPrefix(cfg, evs, m, p, k);
    }
    if Finished(cfg, evs[..m], k) {
      var p :| 0 <= p < m && FinishedAt(cfg, evs[..m], p, k);
      assert FinishedAt(cfg, evs, p, k);
    }
  }

  /** The tasks of a list yet to be handed out have not finished. */
  lemma NotFinishedBefore(cfg: Config, evs: seq<Event>, k: nat)
    requires ValidConfig(cfg) && Run(cfg, evs).Some? && k >= |Run(cfg, evs).value.handed|
    ensures !Finished(cfg, evs, k)
  {
    forall p | 0 <= p < |evs|
      ensures !FinishedAt(cfg, evs, p, k)
    {
      HandedGrows(cfg, evs, p);
    }
  }

  /** What a step does to the counter, in terms of the lists. */
  lemma StepCounts(cfg: Config, e: Exec, ev: Event)
    requires cfg.dt > 0 && WellFormed(e.wheels) && |e.wheels.levels| > 0 && Step(cfg, e, ev).Some?
    ensures var e' := Step(cfg, e, ev).value;
      match ev
      case ExecuteAt(_, _) => e'.handed == e.handed && e'.tick == e.tick && e'.delivering == e.delivering
      case TasksFinished =>
        e'.handed == e.handed && e'.tick == e.tick + (if e.delivering then 1 else 0) && !e'.delivering
      case TimerTick =>
        if e.delivering then e' == e
        else
          && |e'.handed| == |e.handed| + 1 && e'.handed[..|e.handed|] == e.handed
          && e'.delivering == (e'.handed[|e.handed|] != [])
          && e'.tick == e.tick + (if e'.delivering then 0 else 1)
  {
    if ev.ExecuteAt? {
      InsertRecords(cfg, e, ev.tp, ev.task);
    }
  }

  ghost predicate CountedAt(cfg: Config, evs: seq<Event>, k: nat)
    requires ValidConfig(cfg) && Run(cfg, evs).Some? && k < |Run(cfg, evs).value.handed|
  {
    k < Run(cfg, evs).value.tick <==> Delivered(cfg, evs, k)
  }

  lemma StepKeepsCounted(cfg: Config, evs: seq<Event>, k: nat)
    requires ValidConfig(cfg) && evs != [] && Run(cfg, evs).Some? && k < |Run(cfg, evs).value.handed|
    requires Run(cfg, evs[..|evs| - 1]).Some?
    requires var e := Run(cfg, evs[..|evs| - 1]).value;
      |e.handed| == HandCount(e.tick, e.delivering) && (k < |e.handed| ==> CountedAt(cfg, evs[..|evs| - 1], k))
    ensures CountedAt(cfg, evs, k)
  {
    var m := |evs| - 1;
    StepCounts(cfg, Run(cfg, evs[..m]).value, evs[m]);
    FinishedAfter(cfg, evs, k);
    if k >= |Run(cfg, evs[..m]).value.handed| {
      NotFinishedBefore(cfg, evs[..m], k);
    }
  }

  lemma {:induction false} AllCounted(cfg: Config, evs: seq<Event>)
    requires ValidConfig(cfg) && Run(cfg, evs).Some?
    ensures forall k :: 0 <= k < |Run(cfg, evs).value.handed| ==> CountedAt(cfg, evs, k)
  {
    if evs != [] {
      AllCounted(cfg, evs[..|evs| - 1]);
      RunKeepsInv(cfg, evs[..|evs| - 1]);
      forall k | 0 <= k < |Run(cfg, evs).value.handed|
        ensures CountedAt(cfg, evs, k)
      {
        StepKeepsCounted(cfg, evs, k);
      }
    }
  }

  /** In every run the counter counts exactly the lists that were empty or whose tasks have finished, and
      a list is being delivered exactly while the last one is neither: a tick is never counted while
      its tasks run, however many there are. */
  lemma CountedExactlyWhenDelivered(cfg: Config, evs: seq<Event>)
    requires ValidConfig(cfg) && Run(cfg, evs).Some?
    ensures var e := Run(cfg, evs).value;
      && (forall k :: 0 <= k < |e.handed| ==> (Delivered(cfg, evs, k) <==> k < e.tick))
      && (e.delivering <==> e.handed != [] && !Delivered(cfg, evs, |e.handed| - 1))
      && |e.handed| == if e.delivering then e.tick + 1 else e.tick
  {
    RunKeepsInv(cfg, evs);
    AllCounted(cfg, evs);
    var e := Run(cfg, evs).value;
    forall k | 0 <= k < |e.handed|
      ensures Delivered(cfg, evs, k) <==> k < e.tick
    {
      assert CountedAt(cfg, evs, k);
    }
  }

  // ---- The end of the timer loop --------------------------------------------------------------------

  /** What a sleep reads of the flag after its last slice. */
  predicate LastRead(dt: nat, shutdownSeen: nat -> bool) {
    shutdownSeen(LastSlice(dt, 0, shutdownSeen))
  }

  /** Event `p` is a sleep of a loop that has neither slept yet for the tick to come nor ended. */
  ghost predicate SleepsAt(cfg: Config, evs: seq<ClockedEvent>, p: nat)
    requires ValidConfig(cfg) && p < |evs|
  {
    && evs[p].SleepOneTick? && ClockedRun(cfg, evs[..p]).Some?
    && !ClockedRun(cfg, evs[..p]).value.slept && !ClockedRun(cfg, evs[..p]).value.stopping
  }

  ghost predicate SeesShutdownAt(cfg: Config, evs: seq<ClockedEvent>, p: nat)
    requires ValidConfig(cfg) && p < |evs|
  {
    SleepsAt(cfg, evs, p) && LastRead(cfg.dt, evs[p].shutdownSeen)
  }

  ghost predicate ShutdownSeen(cfg: Config, evs: seq<ClockedEvent>)
    requires ValidConfig(cfg)
  {
    exists p :: 0 <= p < |evs| && SeesShutdownAt(cfg, evs, p)
  }

  lemma ShutdownSeenAfter(cfg: Config, evs: seq<ClockedEvent>)
    requires ValidConfig(cfg) && evs != []
    ensures ShutdownSeen(cfg, evs)
      <==> ShutdownSeen(cfg, evs[..|evs| - 1]) || SeesShutdownAt(cfg, evs, |evs| - 1)
  {
    var m := |evs| - 1;
    assert forall p :: 0 <= p < m ==> evs[..m][..p] == evs[..p];
    assert forall p :: 0 <= p < m ==> (SeesShutdownAt(cfg, evs[..m], p) <==> SeesShutdownAt(cfg, evs, p));
    if ShutdownSeen(cfg, evs[..m]) {
      var p :| 0 <= p < m && SeesShutdownAt(cfg, evs[..m], p);
      assert SeesShutdownAt(cfg, evs, p);
    }
  }

  lemma StepStopsExactly(cfg: Config, c: Clocked, ev: ClockedEvent)
    requires cfg.dt > 0 && WellFormed(c.exec.wheels) && |c.exec.wheels.levels| > 0
    requires ClockedStep(cfg, c, ev).Some?
    ensures ClockedStep(cfg, c, ev).value.stopping
      <==> c.stopping || (ev.SleepOneTick? && !c.slept && LastRead(cfg.dt, ev.shutdownSeen))
  {
  }

  /** In every run the loop is at its end exactly if some sleep read the flag as set after its last
      slice. */
  lemma {:induction false} StopsExactlyWhenSeen(cfg: Config, evs: seq<ClockedEvent>)
    requires ValidConfig(cfg) && ClockedRun(cfg, evs).Some?
    ensures ClockedRun(cfg, evs).value.stopping <==> ShutdownSeen(cfg, evs)
  {
    if evs != [] {
      var m := |evs| - 1;
      StopsExactlyWhenSeen(cfg, evs[..m]);
      ShutdownSeenAfter(cfg, evs);
      StepStopsExactly(cfg, ClockedRun(cfg, evs[..m]).value, evs[m]);
    }
  }

  /** The lists a loop that has seen the shutdown can still take. */
  function ListsLeft(c: Clocked): nat {
    if c.slept && !c.exec.delivering then 1 else 0
  }

  lemma StoppingStep(cfg: Config, c: Clocked, ev: ClockedEvent)
    requires cfg.dt > 0 && WellFormed(c.exec.wheels) && |c.exec.wheels.levels| > 0
    requires c.stopping && ClockedStep(cfg, c, ev).Some?
    ensures var c' := ClockedStep(cfg, c, ev).value;
      && c'.stopping && c'.lastLoop == c.lastLoop
      && |c'.exec.handed| + ListsLeft(c') <= |c.exec.handed| + ListsLeft(c)
      && |c'.deadlines| + ListsLeft(c') <= |c.deadlines| + ListsLeft(c)
  {
  }

  lemma {:induction false} StoppingSuffix(cfg: Config, evs: seq<ClockedEvent>, q: nat)
    requires ValidConfig(cfg) && ClockedRun(cfg, evs).Some? && q <= |evs|
    requires ClockedRun(cfg, evs[..q]).Some? && ClockedRun(cfg, evs[..q]).value.stopping
    ensures var c, c' := ClockedRun(cfg, evs[..q]).value, ClockedRun(cfg, evs).value;
      && c'.stopping && c'.lastLoop == c.lastLoop
      && |c'.exec.handed| + ListsLeft(c') <= |c.exec.handed| + ListsLeft(c)
      && |c'.deadlines| + ListsLeft(c') <= |c.deadlines| + ListsLeft(c)
  {
    if q == |evs| {
      assert evs[..q] == evs;
    } else {
      var m := |evs| - 1;
      assert evs[..m][..q] == evs[..q];
      StoppingSuffix(cfg, evs[..m], q);
      StoppingStep(cfg, ClockedRun(cfg, evs[..m]).value, evs[m]);
    }
  }

  /** A shutdown that was seen ends the timer loop. In every run, after a sleep whose last read of the
      flag saw it, there is no further sleep, and at most one more list is handed out and one more
      deadline recorded, whatever follows. */
  lemma ShutdownEndsLoop(cfg: Config, evs: seq<ClockedEvent>, p: nat)
    requires ValidConfig(cfg) && ClockedRun(cfg, evs).Some?
    requires p < |evs| && SeesShutdownAt(cfg, evs, p)
    ensures ClockedRun(cfg, evs[..p + 1]).Some?
    ensures var c, c' := ClockedRun(cfg, evs[..p]).value, ClockedRun(cfg, evs).value;
      && |c'.exec.handed| <= |c.exec.handed| + 1
      && |c'.deadlines| <= |c.deadlines| + 1
      && c'.lastLoop == ClockedRun(cfg, evs[..p + 1]).value.lastLoop
  {
    assert evs[..p + 1] == evs[..p] + [evs[p]];
    ClockedRunStep(cfg, evs[..p], evs[p]);
    StoppingSuffix(cfg, evs, p + 1);
  }

  /** A loop no sleep of which saw the shutdown goes on: when the tasks being delivered have finished and
      it has slept, it takes one more list, or leaves its wheels. */
  lemma LoopGoesOn(cfg: Config, evs: seq<ClockedEvent>, seen: nat -> bool)
    requires ValidConfig(cfg) && ClockedRun(cfg, evs).Some? && !ShutdownSeen(cfg, evs)
    ensures var r := ClockedRun(cfg, evs + [Does(TasksFinished)] + [SleepOneTick(seen)] + [Does(TimerTick)]);
      r.Some? ==>
        && |r.value.exec.handed| == |ClockedRun(cfg, evs).value.exec.handed| + 1
        && |r.value.deadlines| == |ClockedRun(cfg, evs).value.deadlines| + 1
  {
    StopsExactlyWhenSeen(cfg, evs);
    ClockedRunKeepsInv(cfg, evs);
    var c := ClockedRun(cfg, evs).value;
    ClockedRunStep(cfg, evs, Does(TasksFinished));
    ClockedRunStep(cfg, evs + [Does(TasksFinished)], SleepOneTick(seen));
    ClockedRunStep(cfg, evs + [Does(TasksFinished)] + [SleepOneTick(seen)], Does(TimerTick));
    OneTurn(cfg, c, seen);
  }

  lemma OneTurn(cfg: Config, c: Clocked, seen: nat -> bool)
    requires cfg.dt > 0 && WellFormed(c.exec.wheels) && |c.exec.wheels.levels| > 0
    requires !c.stopping && (c.exec.delivering ==> c.slept)
    ensures var c1 := ClockedStep(cfg, c, Does(TasksFinished)).value;
      var c2 := ClockedStep(cfg, c1, SleepOneTick(seen)).value;
      var r := ClockedStep(cfg, c2, Does(TimerTick));
      && c2.slept && !c2.exec.delivering && c2.exec.handed == c.exec.handed && c2.deadlines == c.deadlines
      && (r.Some? ==> |r.value.exec.handed| == |c.exec.handed| + 1 && |r.value.deadlines| == |c.deadlines| + 1)
  {
  }
}
