/** What the ticks of `TimeWheelSchedule` mean in time: the deadline after which every accepted
    entry is handed out, over all runs of the timer loop. */
module TimeWheelDeadlines {
  import opened Basics
  import opened WheelArithmetic
  import opened TimingWheel
  import opened TimeWheelSpec
  import opened TimeWheelSchedule
  import opened TimeWheelClock

  // ---- Timed runs and runs --------------------------------------------------------------------

  predicate Happens(c: Clocked, ev: ClockedEvent) {
    ev.Does? && Enabled(c, ev.ev)
  }

  /** The events of the executor that happen in a timed run. */
  ghost function Untimed(cfg: Config, evs: seq<ClockedEvent>): seq<Event>
    requires ValidConfig(cfg)
  {
    if evs == [] then []
    else
      var before, ev := evs[..|evs| - 1], evs[|evs| - 1];
      match ClockedRun(cfg, before)
      case None => Untimed(cfg, before)
      case Some(c) =>
        if Happens(c, ev) then Untimed(cfg, before) + [ev.ev] else Untimed(cfg, before)
  }

  ghost predicate SameExecutor(c: Option<Clocked>, e: Option<Exec>) {
    match c
    case None => e == None
    case Some(c) => e == Some(c.exec)
  }

  /** A timed run is a run of the executor with sleeps in between: everything that is proved of all
      runs holds of it. */
  lemma {:induction false} TimedRunIsRun(cfg: Config, evs: seq<ClockedEvent>)
    requires ValidConfig(cfg)
    ensures SameExecutor(ClockedRun(cfg, evs), Run(cfg, Untimed(cfg, evs)))
  {
    if evs != [] {
      var before, ev := evs[..|evs| - 1], evs[|evs| - 1];
      TimedRunIsRun(cfg, before);
      if ClockedRun(cfg, before).Some? {
        TimedStepIsStep(cfg, ClockedRun(cfg, before).value, ev);
        if Happens(ClockedRun(cfg, before).value, ev) {
          RunStep(cfg, Untimed(cfg, before), ev.ev);
        }
      }
    }
  }

  lemma TimedStepIsStep(cfg: Config, c: Clocked, ev: ClockedEvent)
    requires cfg.dt > 0 && WellFormed(c.exec.wheels) && |c.exec.wheels.levels| > 0
    ensures SameExecutor(ClockedStep(cfg, c, ev),
      if Happens(c, ev) then Step(cfg, c.exec, ev.ev) else Some(c.exec))
  {
  }

  lemma ClockedRunStep(cfg: Config, evs: seq<ClockedEvent>, ev: ClockedEvent)
    requires ValidConfig(cfg) && ClockedRun(cfg, evs).Some?
    ensures ClockedRun(cfg, evs + [ev]) == ClockedStep(cfg, ClockedRun(cfg, evs).value, ev)
  {
    assert (evs + [ev])[..|evs|] == evs;
  }

  /** Every run is the run of a timer loop that is not shut down. */
  lemma {:induction false} RunCanBeTimed(cfg: Config, evs: seq<Event>) returns (timed: seq<ClockedEvent>)
    requires ValidConfig(cfg)
    ensures SameExecutor(ClockedRun(cfg, timed), Run(cfg, evs))
    ensures ClockedRun(cfg, timed).Some? ==> !ClockedRun(cfg, timed).value.stopping
  {
    timed := [];
    if evs != [] {
      var ev := evs[|evs| - 1];
      timed := RunCanBeTimed(cfg, evs[..|evs| - 1]);
      if ClockedRun(cfg, timed).Some? {
        StepCanBeTimed(cfg, ClockedRun(cfg, timed).value, ev);
        ClockedRunStep(cfg, timed, SleepOneTick(_ => false));
        timed := timed + [SleepOneTick(_ => false)];
        ClockedRunStep(cfg, timed, Does(ev));
        timed := timed + [Does(ev)];
      }
    }
  }

  /** After a sleep every event of the executor has the effect it has without a clock. */
  lemma StepCanBeTimed(cfg: Config, c: Clocked, ev: Event)
    requires cfg.dt > 0 && WellFormed(c.exec.wheels) && |c.exec.wheels.levels| > 0 && !c.stopping
    ensures var slept := ClockedStep(cfg, c, SleepOneTick(_ => false)).value;
      var r := ClockedStep(cfg, slept, Does(ev));
      && !slept.stopping && SameExecutor(r, Step(cfg, c.exec, ev))
      && (r.Some? ==> !r.value.stopping)
  {
  }

  // ---- Deadlines of the ticks -------------------------------------------------------------------

  /** What a shutdown can have cut short: the sleep before the last tick taken. */
  predicate CutShort(c: Clocked, k: nat) {
    c.stopping && !(c.slept && !c.exec.delivering) && k + 1 == |c.deadlines|
  }

  ghost predicate DeadlinesAre(cfg: Config, c: Clocked) {
    forall k :: 0 <= k < |c.deadlines| ==>
      && TickStart(cfg, k) < c.deadlines[k] <= TickStart(cfg, k + 1)
      && (!CutShort(c, k) ==> c.deadlines[k] == TickStart(cfg, k + 1))
  }

  ghost predicate TimesAre(cfg: Config, c: Clocked)
    requires cfg.dt > 0
  {
    && |c.times| == |c.exec.accepted|
    && forall i :: 0 <= i < |c.times| ==>
      c.exec.accepted[i].entry.tickCount == VirtualTime(cfg.start, c.times[i]) / cfg.dt
  }

  ghost predicate ClockInv(cfg: Config, c: Clocked)
    requires cfg.dt > 0
  {
    && OnSchedule(cfg, c)
    && |c.deadlines| == |c.exec.handed| == HandCount(c.exec.tick, c.exec.delivering)
    && DeadlinesAre(cfg, c)
    && TimesAre(cfg, c)
  }

  lemma InsertRecordsTime(cfg: Config, c: Clocked, tp: uint64, task: Task)
    requires cfg.dt > 0 && WellFormed(c.exec.wheels) && ClockInv(cfg, c)
    ensures ClockInv(cfg, Record(c, ExecuteAt(tp, task), Insert(cfg, c.exec, tp, task)))
  {
    var v := VirtualTime(cfg.start, tp);
    if v >= c.exec.tick * cfg.dt {
      VirtualTimeTick(v, cfg.dt, c.exec.tick);
    }
  }

  lemma SleepKeepsDeadlines(cfg: Config, c: Clocked, seen: nat -> bool)
    requires cfg.dt > 0 && WellFormed(c.exec.wheels) && |c.exec.wheels.levels| > 0 && ClockInv(cfg, c)
    ensures ClockInv(cfg, ClockedStep(cfg, c, SleepOneTick(seen)).value)
  {
    var c' := ClockedStep(cfg, c, SleepOneTick(seen)).value;
    StepKeepsSchedule(cfg, c, SleepOneTick(seen));
    assert forall k :: 0 <= k < |c.deadlines| ==> CutShort(c, k) || !CutShort(c', k);
  }

  /** A tick taken after a sleep records the deadline of that sleep. */
  lemma TickAddsDeadline(cfg: Config, c: Clocked, e: Exec)
    requires cfg.dt > 0 && OnSchedule(cfg, c) && DeadlinesAre(cfg, c) && Enabled(c, TimerTick)
    requires |c.deadlines| == c.exec.tick
    ensures DeadlinesAre(cfg, Record(c, TimerTick, e))
  {
    var c' := Record(c, TimerTick, e);
    forall k | 0 <= k < |c'.deadlines|
      ensures TickStart(cfg, k) < c'.deadlines[k] <= TickStart(cfg, k + 1)
      ensures !CutShort(c', k) ==> c'.deadlines[k] == TickStart(cfg, k + 1)
    {
      if k < |c.deadlines| {
        assert !CutShort(c, k) && c'.deadlines[k] == c.deadlines[k];
      }
    }
  }

  lemma TickKeepsInv(cfg: Config, c: Clocked, e: Exec)
    requires cfg.dt > 0 && ClockInv(cfg, c) && Enabled(c, TimerTick)
    requires e.accepted == c.exec.accepted && |e.handed| == |c.exec.handed| + 1
    requires e.tick == if e.delivering then c.exec.tick else c.exec.tick + 1
    ensures ClockInv(cfg, Record(c, TimerTick, e))
  {
    TickAddsDeadline(cfg, c, e);
    assert OnSchedule(cfg, Record(c, TimerTick, e));
  }

  lemma FinishKeepsDeadlines(cfg: Config, c: Clocked)
    requires cfg.dt > 0 && WellFormed(c.exec.wheels) && |c.exec.wheels.levels| > 0 && ClockInv(cfg, c)
    ensures ClockInv(cfg, ClockedStep(cfg, c, Does(TasksFinished)).value)
  {
    var c' := ClockedStep(cfg, c, Does(TasksFinished)).value;
    StepKeepsSchedule(cfg, c, Does(TasksFinished));
    assert forall k :: 0 <= k < |c.deadlines| ==> CutShort(c, k) == CutShort(c', k);
  }

  lemma ClockedStepKeepsInv(cfg: Config, c: Clocked, ev: ClockedEvent)
    requires cfg.dt > 0 && WellFormed(c.exec.wheels) && |c.exec.wheels.levels| > 0
    requires ClockInv(cfg, c) && ClockedStep(cfg, c, ev).Some?
    ensures ClockInv(cfg, ClockedStep(cfg, c, ev).value)
  {
    match ev
    case SleepOneTick(seen) => SleepKeepsDeadlines(cfg, c, seen);
    case Does(ev) =>
      match ev
      case ExecuteAt(tp, task) => InsertRecordsTime(cfg, c, tp, task);
      case TimerTick =>
        if Enabled(c, TimerTick) {
          TickKeepsInv(cfg, c, Step(cfg, c.exec, TimerTick).value);
        }
      case TasksFinished => FinishKeepsDeadlines(cfg, c);
  }

  lemma {:induction false} ClockedRunKeepsInv(cfg: Config, evs: seq<ClockedEvent>)
    requires ValidConfig(cfg) && ClockedRun(cfg, evs).Some?
    ensures ClockInv(cfg, ClockedRun(cfg, evs).value)
  {
    if evs != [] {
      ClockedRunKeepsInv(cfg, evs[..|evs| - 1]);
      ClockedStepKeepsInv(cfg, ClockedRun(cfg, evs[..|evs| - 1]).value, evs[|evs| - 1]);
    }
  }

  /** The timer does not drift. In every run, one deadline is slept until for each list handed out,
      and the one before tick `k` is `start + (k + 1) * dt`, however long the sleeps and tasks
      took; a shutdown can only bring the last one forward, by less than `dt`. */
  lemma DeadlinesDoNotDrift(cfg: Config, evs: seq<ClockedEvent>, k: nat)
    requires ValidConfig(cfg) && ClockedRun(cfg, evs).Some?
    ensures var c := ClockedRun(cfg, evs).value;
      && |c.deadlines| == |c.exec.handed|
      && (k < |c.deadlines| ==> cfg.start + k * cfg.dt < c.deadlines[k] <= cfg.start + (k + 1) * cfg.dt)
      && (k < |c.deadlines| && (!c.stopping || k + 1 < |c.deadlines|) ==>
            c.deadlines[k] == cfg.start + (k + 1) * cfg.dt)
  {
    ClockedRunKeepsInv(cfg, evs);
    var c := ClockedRun(cfg, evs).value;
    assert TickStart(cfg, k + 1) == cfg.start + (k + 1) * cfg.dt;
    if k < |c.deadlines| && (!c.stopping || k + 1 < |c.deadlines|) {
      assert !CutShort(c, k);
    }
  }

  // ---- Deadlines of the entries -------------------------------------------------------------------

  /** A time lies in the tick an entry for it is meant for. */
  lemma MeantTickContains(cfg: Config, tp: uint64)
    requires cfg.dt > 0 && tp >= cfg.start
    ensures var t := VirtualTime(cfg.start, tp) / cfg.dt;
      TickStart(cfg, t) <= tp < TickStart(cfg, t + 1)
  {
    var v := tp - cfg.start;
    assert VirtualTime(cfg.start, tp) == v;
    assert v == (v / cfg.dt) * cfg.dt + v % cfg.dt;
    NextTickStart(cfg, v / cfg.dt);
  }

  /** The start of a tick as so many ticks away from that of another. */
  lemma TickStartShift(cfg: Config, k: nat, t: nat)
    ensures TickStart(cfg, k) == TickStart(cfg, t) + (k - t) * cfg.dt
  {
  }

  lemma {:induction false} DueIsScheduled(sizes: seq<nat>, log: seq<Insertion>, i: nat, k: nat)
    requires ValidSizes(sizes) && LogInOrder(log) && i < |log| && DueTick(sizes, log[i]) == Some(k)
    ensures log[i].entry in Scheduled(sizes, log, k)
  {
    if i < |log| - 1 {
      DueIsScheduled(sizes, log[..|log| - 1], i, k);
    }
  }

  /** Times a whole number of ticks apart lie in the same `dt` only if they are the same tick. */
  lemma SameTickOnly(cfg: Config, tp: int, k: nat, t: nat)
    requires cfg.dt > 0 && TickStart(cfg, t) <= tp < TickStart(cfg, t + 1)
    ensures tp < TickStart(cfg, k + 1) <= tp + cfg.dt <==> k == t
  {
    TickStartShift(cfg, k + 1, t + 1);
    if tp < TickStart(cfg, k + 1) <= tp + cfg.dt {
      SmallMultiple(k - t, cfg.dt);
    }
  }

  lemma DueIsHandedOut(cfg: Config, e: Exec, i: nat, k: nat)
    requires ValidConfig(cfg) && Inv(cfg, e)
    requires i < |e.accepted| && DueTick(cfg.sizes, e.accepted[i]) == Some(k) && k < |e.handed|
    ensures e.accepted[i].entry in e.handed[k]
    ensures OnTime(cfg.sizes, e.accepted[i]) <==> k == e.accepted[i].entry.tickCount
  {
    DueIsScheduled(cfg.sizes, e.accepted, i, k);
    assert e.accepted[i].entry in multiset(e.handed[k]);
    OnTimeExactly(cfg.sizes, e.accepted[i]);
  }

  lemma DeadlineInTimeExactly(cfg: Config, c: Clocked, i: nat, k: nat)
    requires cfg.dt > 0 && ClockInv(cfg, c) && i < |c.times| && k < |c.deadlines| && c.times[i] >= cfg.start
    requires !c.stopping || k + 1 < |c.deadlines|
    ensures c.times[i] < c.deadlines[k] <= c.times[i] + cfg.dt <==> k == c.exec.accepted[i].entry.tickCount
  {
    assert !CutShort(c, k);
    MeantTickContains(cfg, c.times[i]);
    SameTickOnly(cfg, c.times[i], k, c.exec.accepted[i].entry.tickCount);
  }

  /** In every run: what is due at tick `k` and was asked for at time `tp` is in the list handed out
      at tick `k`, and the deadline slept until before that lies in `(tp, tp + dt]`, never early and
      at most one tick late, exactly if the insertion met `OnTime`. This holds of every tick
      whose sleep was not cut short by a shutdown. */
  lemma HandedOutInTimeExactly(cfg: Config, evs: seq<ClockedEvent>, i: nat, k: nat)
    requires ValidConfig(cfg) && ClockedRun(cfg, evs).Some?
    ensures var c, s := ClockedRun(cfg, evs).value, cfg.sizes;
      var log := c.exec.accepted;
      && |c.deadlines| == |c.exec.handed| && |c.times| == |log| && LogInOrder(log)
      && (i < |log| && DueTick(s, log[i]) == Some(k) && k < |c.exec.handed| && c.times[i] >= cfg.start ==>
            && log[i].entry in c.exec.handed[k]
            && (!c.stopping || k + 1 < |c.deadlines| ==>
                  (OnTime(s, log[i]) <==> c.times[i] < c.deadlines[k] <= c.times[i] + cfg.dt)))
  {
    ClockedRunKeepsInv(cfg, evs);
    TimedRunIsRun(cfg, evs);
    RunKeepsInv(cfg, Untimed(cfg, evs));
    var c := ClockedRun(cfg, evs).value;
    var log := c.exec.accepted;
    if i < |log| && DueTick(cfg.sizes, log[i]) == Some(k) && k < |c.exec.handed| && c.times[i] >= cfg.start {
      DueIsHandedOut(cfg, c.exec, i, k);
      if !c.stopping || k + 1 < |c.deadlines| {
        DeadlineInTimeExactly(cfg, c, i, k);
      }
    }
  }

  lemma OnTimeIsHandedOut(cfg: Config, e: Exec, i: nat)
    requires ValidConfig(cfg) && Inv(cfg, e) && i < |e.accepted| && OnTime(cfg.sizes, e.accepted[i])
    ensures var entry := e.accepted[i].entry;
      entry.tickCount < |e.handed| ==> entry in e.handed[entry.tickCount]
  {
    OnTimeExactly(cfg.sizes, e.accepted[i]);
    if e.accepted[i].entry.tickCount < |e.handed| {
      DueIsHandedOut(cfg, e, i, e.accepted[i].entry.tickCount);
    }
  }

  lemma DeadlineOfMeantTick(cfg: Config, c: Clocked, i: nat)
    requires cfg.dt > 0 && ClockInv(cfg, c) && i < |c.times| && c.times[i] >= cfg.start
    ensures var tp, t := c.times[i], c.exec.accepted[i].entry.tickCount;
      t < |c.deadlines| ==>
        && tp - cfg.dt < c.deadlines[t] <= tp + cfg.dt
        && (!c.stopping || t + 1 < |c.deadlines| ==> tp < c.deadlines[t])
  {
    var t := c.exec.accepted[i].entry.tickCount;
    MeantTickContains(cfg, c.times[i]);
    NextTickStart(cfg, t);
    if t < |c.deadlines| && (!c.stopping || t + 1 < |c.deadlines|) {
      assert !CutShort(c, t);
    }
  }

  /** The same for the intended tick: an entry that met `OnTime` when it was accepted for time `tp` is
      handed out at its own tick, after a deadline in `(tp, tp + dt]`; if a shutdown cut the
      sleep before it short, after one in `(tp - dt, tp + dt]`. */
  lemma HandedOutInTime(cfg: Config, evs: seq<ClockedEvent>, i: nat)
    requires ValidConfig(cfg) && ClockedRun(cfg, evs).Some?
    ensures var c, s := ClockedRun(cfg, evs).value, cfg.sizes;
      var log := c.exec.accepted;
      && |c.deadlines| == |c.exec.handed| && |c.times| == |log| && LogInOrder(log)
      && (i < |log| && OnTime(s, log[i]) && c.times[i] >= cfg.start ==>
            var tp, t := c.times[i], log[i].entry.tickCount;
            t < |c.exec.handed| ==>
              && log[i].entry in c.exec.handed[t]
              && tp - cfg.dt < c.deadlines[t] <= tp + cfg.dt
              && (!c.stopping || t + 1 < |c.deadlines| ==> tp < c.deadlines[t]))
  {
    ClockedRunKeepsInv(cfg, evs);
    TimedRunIsRun(cfg, evs);
    RunKeepsInv(cfg, Untimed(cfg, evs));
    var c := ClockedRun(cfg, evs).value;
    if i < |c.exec.accepted| && OnTime(cfg.sizes, c.exec.accepted[i]) && c.times[i] >= cfg.start {
      OnTimeIsHandedOut(cfg, c.exec, i);
      DeadlineOfMeantTick(cfg, c, i);
    }
  }
}
