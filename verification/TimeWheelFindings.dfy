/** Runs of the timing wheel as it is written that do not do what they are meant to, one for each
    way `TimeWheelSchedule` says they can fail, and what follows for every run. */
module TimeWheelFindings {
  import opened Basics
  import opened WheelArithmetic
  import opened TimingWheel
  import opened TimeWheelSpec
  import opened TimeWheelSchedule
  import opened TimeWheelRange
  import opened TimeWheelLosses

  // ---- For every run ----------------------------------------------------------------------

  lemma {:induction false} ScheduledWasInserted(sizes: seq<nat>, log: seq<Insertion>, k: nat, x: TaskWithTimestamp)
    requires ValidSizes(sizes) && LogInOrder(log) && x in Scheduled(sizes, log, k)
    ensures exists i :: 0 <= i < |log| && log[i].entry == x && DueTick(sizes, log[i]) == Some(k)
  {
    var last := log[|log| - 1];
    if last.entry != x || DueTick(sizes, last) != Some(k) {
      ScheduledWasInserted(sizes, log[..|log| - 1], k, x);
    }
  }

  /** Nothing comes out that was not put in, nor before the tick at which it was put in. With more
      than one wheel only what lay within the first wheel ever comes out, at its own tick or,
      if it was inserted for the very tick being delivered, one turn later. */
  lemma HandedOutWasInserted(cfg: Config, evs: seq<Event>, k: nat, x: TaskWithTimestamp)
    requires ValidConfig(cfg) && Run(cfg, evs).Some?
    requires k < |Run(cfg, evs).value.handed| && x in Run(cfg, evs).value.handed[k]
    ensures var e, s0 := Run(cfg, evs).value, cfg.sizes[0];
      exists i :: 0 <= i < |e.accepted| && e.accepted[i].entry == x && e.accepted[i].tick <= k
        && (|cfg.sizes| > 1 ==> x.tickCount < e.accepted[i].tick + s0 && (k == x.tickCount || k == x.tickCount + s0))
  {
    HandedOutExactlyWhenDue(cfg, evs, k);
    var e := Run(cfg, evs).value;
    assert x in multiset(e.handed[k]);
    ScheduledWasInserted(cfg.sizes, e.accepted, k, x);
    var i :| 0 <= i < |e.accepted| && e.accepted[i].entry == x && DueTick(cfg.sizes, e.accepted[i]) == Some(k);
    DueNotBefore(cfg.sizes, e.accepted[i]);
  }

  // ---- Building a run -----------------------------------------------------------------------

  /** The configurations of the examples: ticks of one nanosecond, counted from time 0. */
  function Cfg(sizes: seq<nat>): Config {
    Config(sizes, 1, 0)
  }

  /** Where a run stands, but for its wheels. */
  ghost predicate At(sizes: seq<nat>, evs: seq<Event>, tick: nat, delivering: bool,
                     log: seq<Insertion>, handed: seq<TaskList>)
    requires ValidSizes(sizes)
  {
    match Run(Cfg(sizes), evs)
    case None => false
    case Some(e) =>
      e.tick == tick && e.delivering == delivering && e.accepted == log && e.handed == handed
  }

  lemma StartAt(sizes: seq<nat>)
    requires ValidSizes(sizes)
    ensures At(sizes, [], 0, false, [], [])
  {
    assert Run(Cfg(sizes), []) == Some(Initial(Cfg(sizes)));
  }

  lemma FirstInsertAt(sizes: seq<nat>, tp: uint64, task: Task)
    requires ValidSizes(sizes)
    ensures At(sizes, [ExecuteAt(tp, task)], 0, false, [Insertion(0, false, TaskWithTimestamp(tp, task))], [])
  {
    var log: seq<Insertion> := [];
    var evs: seq<Event> := [];
    StartAt(sizes);
    InsertAt(sizes, evs, 0, false, log, [], tp, task);
    assert evs + [ExecuteAt(tp, task)] == [ExecuteAt(tp, task)];
    assert log + [Insertion(0, false, TaskWithTimestamp(tp, task))]
      == [Insertion(0, false, TaskWithTimestamp(tp, task))];
  }

  lemma InsertAt(sizes: seq<nat>, evs: seq<Event>, tick: nat, delivering: bool,
                 log: seq<Insertion>, handed: seq<TaskList>, tp: uint64, task: Task)
    requires ValidSizes(sizes) && At(sizes, evs, tick, delivering, log, handed) && tp >= tick
    ensures At(sizes, evs + [ExecuteAt(tp, task)], tick, delivering,
               log + [Insertion(tick, delivering, TaskWithTimestamp(tp, task))], handed)
  {
    RunStep(Cfg(sizes), evs, ExecuteAt(tp, task));
    assert VirtualTime(0, tp) == tp;
  }

  /** A tick hands out what the main theorem says it does: here at most one task. */
  lemma TickAt(sizes: seq<nat>, evs: seq<Event>, tick: nat, log: seq<Insertion>, handed: seq<TaskList>, out: TaskList)
    requires ValidSizes(sizes) && At(sizes, evs, tick, false, log, handed) && LogInOrder(log)
    requires Run(Cfg(sizes), evs + [TimerTick]).Some?
    requires |out| <= 1 && Scheduled(sizes, log, tick) == multiset(out)
    ensures At(sizes, evs + [TimerTick], if out == [] then tick + 1 else tick, out != [], log, handed + [out])
  {
    RunStep(Cfg(sizes), evs, TimerTick);
    RunKeepsInv(Cfg(sizes), evs);
    HandedOutExactlyWhenDue(Cfg(sizes), evs + [TimerTick], tick);
    SameAsMultiset(Run(Cfg(sizes), evs + [TimerTick]).value.handed[tick], out);
  }

  lemma SameAsMultiset(list: TaskList, out: TaskList)
    requires |out| <= 1 && multiset(list) == multiset(out)
    ensures list == out
  {
    assert |list| == |multiset(list)| == |multiset(out)| == |out|;
    if out != [] {
      assert list[0] in multiset(out);
    }
  }

  lemma FinishAt(sizes: seq<nat>, evs: seq<Event>, tick: nat, log: seq<Insertion>, handed: seq<TaskList>)
    requires ValidSizes(sizes) && At(sizes, evs, tick, true, log, handed)
    ensures At(sizes, evs + [TasksFinished], tick + 1, false, log, handed)
  {
    RunStep(Cfg(sizes), evs, TasksFinished);
  }

  lemma ScheduledOne(sizes: seq<nat>, ins: Insertion, k: nat)
    requires ValidSizes(sizes) && ins.tick <= ins.entry.tickCount
    ensures Scheduled(sizes, [ins], k)
      == if DueTick(sizes, ins) == Some(k) then multiset{ins.entry} else multiset{}
  {
    ScheduledAppend(sizes, [], ins, k);
    assert [] + [ins] == [ins];
  }

  // ---- Particular runs ----------------------------------------------------------------------

  /** A first tick hands out nothing. */
  lemma FirstTickAt(sizes: seq<nat>)
    requires ValidSizes(sizes) && |sizes| == 1
    ensures At(sizes, [TimerTick], 1, false, [], [[]])
  {
    var none: seq<TaskList> := [];
    var evs: seq<Event> := [];
    StartAt(sizes);
    assert evs + [TimerTick] == [TimerTick] && none + [[]] == [[]];
    OneWheelStaysInRange(Cfg(sizes), [TimerTick]);
    TickAt(sizes, evs, 0, [], none, []);
  }

  lemma DueEarly(s: seq<nat>, ins: Insertion)
    requires s == [2] && ins == Insertion(1, false, TaskWithTimestamp(4, 7))
    ensures ValidSizes(s) && LogInOrder([ins])
    ensures Scheduled(s, [ins], 1) == multiset{} && Scheduled(s, [ins], 2) == multiset{ins.entry}
  {
    OneLevelDue(2, 1, 4);
    ScheduledOne(s, ins, 1);
    ScheduledOne(s, ins, 2);
  }

  lemma InsertedAtTickOne(s: seq<nat>, ins: Insertion)
    requires s == [2] && ins == Insertion(1, false, TaskWithTimestamp(4, 7))
    ensures ValidSizes(s) && At(s, [TimerTick] + [ExecuteAt(4, 7)], 1, false, [ins], [[]])
  {
    var log: seq<Insertion> := [];
    FirstTickAt(s);
    InsertAt(s, [TimerTick], 1, false, log, [[]], 4, 7);
    assert log + [ins] == [ins];
  }

  /** One wheel of two slots: a task for tick 4, inserted at tick 1, comes out at tick 2. */
  lemma OneTurnEarly()
    ensures ValidSizes([2])
    ensures At([2], [TimerTick] + [ExecuteAt(4, 7)] + [TimerTick] + [TimerTick], 2, true,
               [Insertion(1, false, TaskWithTimestamp(4, 7))], [[]] + [[]] + [[TaskWithTimestamp(4, 7)]])
  {
    var s: seq<nat> := [2];
    var ins := Insertion(1, false, TaskWithTimestamp(4, 7));
    var evs := [TimerTick] + [ExecuteAt(4, 7)];
    DueEarly(s, ins);
    InsertedAtTickOne(s, ins);
    OneWheelStaysInRange(Cfg(s), evs + [TimerTick]);
    TickAt(s, evs, 1, [ins], [[]], []);
    OneWheelStaysInRange(Cfg(s), evs + [TimerTick] + [TimerTick]);
    TickAt(s, evs + [TimerTick], 2, [ins], [[]] + [[]], [ins.entry]);
  }

  /** A task runs at tick 0 and, before it has finished, asks for another one at tick 0. */
  lemma RescheduleNow()
    ensures ValidSizes([2])
    ensures At([2], [ExecuteAt(0, 1)] + [TimerTick] + [ExecuteAt(0, 2)] + [TasksFinished], 1, false,
               [Insertion(0, false, TaskWithTimestamp(0, 1))] + [Insertion(0, true, TaskWithTimestamp(0, 2))],
               [[TaskWithTimestamp(0, 1)]])
  {
    var s: seq<nat> := [2];
    var first, second := TaskWithTimestamp(0, 1), TaskWithTimestamp(0, 2);
    var i1, i2 := Insertion(0, false, first), Insertion(0, true, second);
    var none: seq<TaskList> := [];
    var evs := [ExecuteAt(0, 1)];
    assert none + [[first]] == [[first]];
    FirstInsertAt(s, 0, 1);
    ScheduledOne(s, i1, 0);
    OneWheelStaysInRange(Cfg(s), evs + [TimerTick]);
    TickAt(s, evs, 0, [i1], none, [first]);
    evs := evs + [TimerTick];
    InsertAt(s, evs, 0, true, [i1], [[first]], 0, 2);
    FinishAt(s, evs + [ExecuteAt(0, 2)], 0, [i1] + [i2], [[first]]);
  }

  /** The second task comes out neither at tick 0 nor at the next one, but a whole turn later. */
  lemma OneTurnLate()
    ensures ValidSizes([2])
    ensures var first, second := TaskWithTimestamp(0, 1), TaskWithTimestamp(0, 2);
      At([2], [ExecuteAt(0, 1)] + [TimerTick] + [ExecuteAt(0, 2)] + [TasksFinished] + [TimerTick] + [TimerTick],
         2, true, [Insertion(0, false, first)] + [Insertion(0, true, second)], [[first]] + [[]] + [[second]])
  {
    var s: seq<nat> := [2];
    var first, second := TaskWithTimestamp(0, 1), TaskWithTimestamp(0, 2);
    var i1, i2 := Insertion(0, false, first), Insertion(0, true, second);
    var log := [i1] + [i2];
    var evs := [ExecuteAt(0, 1)] + [TimerTick] + [ExecuteAt(0, 2)] + [TasksFinished];
    RescheduleNow();
    ScheduledTwo(s, i1, i2, 1);
    OneWheelStaysInRange(Cfg(s), evs + [TimerTick]);
    TickAt(s, evs, 1, log, [[first]], []);
    ScheduledTwo(s, i1, i2, 2);
    OneWheelStaysInRange(Cfg(s), evs + [TimerTick] + [TimerTick]);
    TickAt(s, evs + [TimerTick], 2, log, [[first]] + [[]], [second]);
  }

  /** A task runs at tick 1, the last of a turn, and before it has finished asks for one at tick 3. */
  lemma ScheduleNextTurn()
    ensures ValidSizes([2])
    ensures At([2], [ExecuteAt(1, 1)] + [TimerTick] + [TimerTick] + [ExecuteAt(3, 2)] + [TasksFinished], 2, false,
               [Insertion(0, false, TaskWithTimestamp(1, 1))] + [Insertion(1, true, TaskWithTimestamp(3, 2))],
               [[]] + [[TaskWithTimestamp(1, 1)]])
  {
    var s: seq<nat> := [2];
    var first := TaskWithTimestamp(1, 1);
    var i1 := Insertion(0, false, first);
    var none: seq<TaskList> := [];
    var evs := [ExecuteAt(1, 1)];
    assert none + [[]] == [[]];
    FirstInsertAt(s, 1, 1);
    ScheduledOne(s, i1, 0);
    OneWheelStaysInRange(Cfg(s), evs + [TimerTick]);
    TickAt(s, evs, 0, [i1], none, []);
    ScheduledOne(s, i1, 1);
    OneWheelStaysInRange(Cfg(s), evs + [TimerTick] + [TimerTick]);
    TickAt(s, evs + [TimerTick], 1, [i1], [[]], [first]);
    evs := evs + [TimerTick] + [TimerTick];
    InsertAt(s, evs, 1, true, [i1], [[]] + [[first]], 3, 2);
    FinishAt(s, evs + [ExecuteAt(3, 2)], 1, [i1] + [Insertion(1, true, TaskWithTimestamp(3, 2))], [[]] + [[first]]);
  }

  /** The second task was put under key 1 of the map, which the carry at the end of the turn has just
      passed: it does not come out at tick 3, and is due at no later one. */
  lemma NeverWithOneWheel()
    ensures ValidSizes([2]) && DueTick([2], Insertion(1, true, TaskWithTimestamp(3, 2))) == None
    ensures var first, second := TaskWithTimestamp(1, 1), TaskWithTimestamp(3, 2);
      At([2], [ExecuteAt(1, 1)] + [TimerTick] + [TimerTick] + [ExecuteAt(3, 2)] + [TasksFinished]
           + [TimerTick] + [TimerTick],
         4, false, [Insertion(0, false, first)] + [Insertion(1, true, second)], [[]] + [[first]] + [[]] + [[]])
  {
    var s: seq<nat> := [2];
    var first := TaskWithTimestamp(1, 1);
    var i1, i2 := Insertion(0, false, first), Insertion(1, true, TaskWithTimestamp(3, 2));
    var log := [i1] + [i2];
    var evs := [ExecuteAt(1, 1)] + [TimerTick] + [TimerTick] + [ExecuteAt(3, 2)] + [TasksFinished];
    ScheduleNextTurn();
    ScheduledTwo(s, i1, i2, 2);
    OneWheelStaysInRange(Cfg(s), evs + [TimerTick]);
    TickAt(s, evs, 2, log, [[]] + [[first]], []);
    ScheduledTwo(s, i1, i2, 3);
    OneWheelStaysInRange(Cfg(s), evs + [TimerTick] + [TimerTick]);
    TickAt(s, evs + [TimerTick], 3, log, [[]] + [[first]] + [[]], []);
  }

  /** An executor started at time 5, with ticks of one nanosecond: a task for time 3 is accepted,
      and due at tick `2^64 - 2`. */
  lemma BeforeTheStart()
    ensures ValidConfig(Config([2], 1, 5)) && Run(Config([2], 1, 5), [ExecuteAt(3, 7)]).Some?
    ensures var ins := Insertion(0, false, TaskWithTimestamp(TWO_TO_THE_64 - 2, 7));
      && Run(Config([2], 1, 5), [ExecuteAt(3, 7)]).value.accepted == [ins]
      && DueTick([2], ins) == Some(TWO_TO_THE_64 - 2)
  {
    var cfg := Config([2], 1, 5);
    var evs: seq<Event> := [];
    InitialWellFormed([2]);
    RunStep(cfg, evs, ExecuteAt(3, 7));
    assert evs + [ExecuteAt(3, 7)] == [ExecuteAt(3, 7)];
    assert VirtualTime(5, 3) == TWO_TO_THE_64 - 2;
    OnTimeExactly([2], Insertion(0, false, TaskWithTimestamp(TWO_TO_THE_64 - 2, 7)));
  }

  lemma ScheduledTwo(sizes: seq<nat>, i1: Insertion, i2: Insertion, k: nat)
    requires ValidSizes(sizes) && i1.tick <= i1.entry.tickCount && i2.tick <= i2.entry.tickCount
    requires DueTick(sizes, i1) != Some(k)
    ensures LogInOrder([i1] + [i2])
    ensures Scheduled(sizes, [i1] + [i2], k)
      == multiset(if DueTick(sizes, i2) == Some(k) then [i2.entry] else [])
  {
    ScheduledOne(sizes, i1, k);
    ScheduledAppend(sizes, [i1], i2, k);
  }

  /** Without anything in the map a tick cannot leave the wheels. */
  lemma {:induction false} EmptyMapStaysInRange(ws: Wheels, i: nat)
    requires WellFormed(ws) && i < |ws.levels| && ws.taskMap == map[]
    ensures Tick(ws, i).Ticked? && Tick(ws, i).wheels.taskMap == map[]
    decreases |ws.levels| - i
  {
    var w := ws.levels[i];
    if w.currentPos + 1 == |w.wheel| && i + 1 < |ws.levels| {
      EmptyMapStaysInRange(ws.(levels := ws.levels[i := Advance(w)]), i + 1);
    }
  }

  /** The run at `evs` stands as `At` says and has put nothing in the map. */
  ghost predicate AtWithoutMap(sizes: seq<nat>, evs: seq<Event>, tick: nat, log: seq<Insertion>, handed: seq<TaskList>)
    requires ValidSizes(sizes)
  {
    At(sizes, evs, tick, false, log, handed) && Run(Cfg(sizes), evs).value.wheels.taskMap == map[]
  }

  lemma IdleTickAt(sizes: seq<nat>, evs: seq<Event>, tick: nat, log: seq<Insertion>, handed: seq<TaskList>)
    requires ValidSizes(sizes) && AtWithoutMap(sizes, evs, tick, log, handed) && LogInOrder(log)
    requires Scheduled(sizes, log, tick) == multiset{}
    ensures AtWithoutMap(sizes, evs + [TimerTick], tick + 1, log, handed + [[]])
  {
    RunStep(Cfg(sizes), evs, TimerTick);
    EmptyMapStaysInRange(Run(Cfg(sizes), evs).value.wheels, 0);
    TickAt(sizes, evs, tick, log, handed, []);
  }

  lemma OnSecondWheel(s: seq<nat>, x: TaskWithTimestamp)
    requires s == [2, 2] && x == TaskWithTimestamp(2, 7)
    ensures ValidSizes(s) && Run(Cfg(s), [ExecuteAt(2, 7)]).Some?
    ensures Run(Cfg(s), [ExecuteAt(2, 7)]).value.wheels.taskMap == map[]
  {
    var evs: seq<Event> := [];
    RunStep(Cfg(s), evs, ExecuteAt(2, 7));
    assert evs + [ExecuteAt(2, 7)] == [ExecuteAt(2, 7)];
    InitialWellFormed(s);
    var ws := InitialWheels(s);
    assert VirtualTime(0, 2) == 2;
    assert Place(ws, 0, 2, 0, x) == Place(ws, 1, 1, 0, x) == AddToSlot(ws, 1, 1, x);
  }

  lemma BlocksOfTwo(s: seq<nat>)
    requires s == [2, 2]
    ensures ValidSizes(s) && Block(s, 0, 2) == 2 && Block(s, 1, 2) == 1 && Block(s, 1, 0) == 0
    ensures Unit(s, 1) == 2 && Hand(s, 1, 0) == 1
  {
    assert Block(s, 1, 2) == Block(s, 0, 2) / 2 && Block(s, 1, 0) == Block(s, 0, 0) / 2;
    assert Unit(s, 1) == Unit(s, 0) * 2;
    assert Hand(s, 1, 0) == NextHand(Hand(s, 0, 0), 2);
  }

  lemma LevelOfTwo(s: seq<nat>)
    requires s == [2, 2]
    ensures ValidSizes(s) && LevelFrom(s, 2, 0) == 1
  {
    BlocksOfTwo(s);
    assert LevelFrom(s, 2, 0) == LevelFrom(s, 2, 1);
  }

  lemma NumbersOfTwo(s: seq<nat>, ins: Insertion)
    requires s == [2, 2] && ins == Insertion(0, false, TaskWithTimestamp(2, 7))
    ensures ValidSizes(s) && LevelOf(s, ins) == 1 && SumAt(s, ins, 1) == 1 && HandWhenInserted(s, ins, 1) == 1
  {
    BlocksOfTwo(s);
    LevelOfTwo(s);
  }

  lemma TakenFromSecondWheel(s: seq<nat>, ins: Insertion)
    requires s == [2, 2] && ins == Insertion(0, false, TaskWithTimestamp(2, 7))
    ensures ValidSizes(s) && TakenFrom(s, ins) == Some(Slot(1, 1))
  {
    NumbersOfTwo(s, ins);
    TakenFromLevel(s, ins, 1, 1, 1, 2);
    SameRemainder(NextAt(1, 1, 2), 1, 2);
  }

  lemma LostWithTickOne(s: seq<nat>, ins: Insertion)
    requires s == [2, 2] && ins == Insertion(0, false, TaskWithTimestamp(2, 7))
    ensures ValidSizes(s) && LostTick(s, ins) == Some(1)
  {
    BlocksOfTwo(s);
    TakenFromSecondWheel(s, ins);
  }

  /** Two wheels of two slots: a task for tick 2, accepted at tick 0, is not handed out at tick 2;
      the carry of tick 1 takes it from the second wheel and destroys it. */
  lemma LostOnSecondWheel()
    ensures ValidSizes([2, 2]) && DueTick([2, 2], Insertion(0, false, TaskWithTimestamp(2, 7))) == None
    ensures LostTick([2, 2], Insertion(0, false, TaskWithTimestamp(2, 7))) == Some(1)
    ensures At([2, 2], [ExecuteAt(2, 7)] + [TimerTick] + [TimerTick] + [TimerTick], 3, false,
               [Insertion(0, false, TaskWithTimestamp(2, 7))], [[]] + [[]] + [[]])
  {
    var s: seq<nat> := [2, 2];
    var x := TaskWithTimestamp(2, 7);
    var ins := Insertion(0, false, x);
    var none: seq<TaskList> := [];
    var evs := [ExecuteAt(2, 7)];
    assert none + [[]] == [[]];
    LostWithTickOne(s, ins);
    FirstInsertAt(s, 2, 7);
    OnSecondWheel(s, x);
    ScheduledOne(s, ins, 0);
    IdleTickAt(s, evs, 0, [ins], none);
    ScheduledOne(s, ins, 1);
    IdleTickAt(s, evs + [TimerTick], 1, [ins], [[]]);
    ScheduledOne(s, ins, 2);
    IdleTickAt(s, evs + [TimerTick] + [TimerTick], 2, [ins], [[]] + [[]]);
  }

  lemma InMap(s: seq<nat>, x: TaskWithTimestamp)
    requires s == [2, 2] && x == TaskWithTimestamp(6, 7)
    ensures ValidSizes(s) && Run(Cfg(s), [ExecuteAt(6, 7)]).Some?
    ensures Run(Cfg(s), [ExecuteAt(6, 7)]).value.wheels == AddToMap(InitialWheels(s), 1, x)
  {
    var evs: seq<Event> := [];
    RunStep(Cfg(s), evs, ExecuteAt(6, 7));
    assert evs + [ExecuteAt(6, 7)] == [ExecuteAt(6, 7)];
    InitialWellFormed(s);
    var ws := InitialWheels(s);
    assert VirtualTime(0, 6) == 6;
    assert Place(ws, 0, 6, 0, x) == Place(ws, 1, 3, 0, x) == Place(ws, 2, 1, 0, x) == AddToMap(ws, 1, x);
  }

  /** Two wheels of two slots: a task for tick 6, accepted at tick 0, goes to the map; the carry at
      tick 1 splices it at position `6 % 4` of a wheel of two slots. */
  lemma OutsideTheWheel()
    ensures ValidSizes([2, 2])
    ensures Run(Cfg([2, 2]), [ExecuteAt(6, 7)] + [TimerTick] + [TimerTick]) == None
  {
    var s: seq<nat> := [2, 2];
    var x := TaskWithTimestamp(6, 7);
    var evs := [ExecuteAt(6, 7)];
    FirstInsertAt(s, 6, 7);
    InMap(s, x);
    InitialWellFormed(s);
    SecondTickFails(s, evs, x);
  }

  lemma SecondTickFails(s: seq<nat>, evs: seq<Event>, x: TaskWithTimestamp)
    requires s == [2, 2] && x == TaskWithTimestamp(6, 7) && ValidSizes(s)
    requires At(s, evs, 0, false, [Insertion(0, false, x)], [])
    requires Run(Cfg(s), evs).value.wheels == AddToMap(InitialWheels(s), 1, x)
    ensures Run(Cfg(s), evs + [TimerTick] + [TimerTick]) == None
  {
    var ws := Run(Cfg(s), evs).value.wheels;
    RunStep(Cfg(s), evs, TimerTick);
    assert Tick(ws, 0) == Ticked(ws.(levels := ws.levels[0 := Advance(ws.levels[0])]), [], []);
    var e' := Run(Cfg(s), evs + [TimerTick]).value;
    RunStep(Cfg(s), evs + [TimerTick], TimerTick);
    assert Unit(s, 2) == Unit(s, 1) * 2 && Unit(s, 1) == Unit(s, 0) * 2;
    assert e'.wheels.levels[1] == InitialLevel(s, 1);
    OutOfRangeExactly(e'.wheels, 0);
    assert x in AtKey(e'.wheels.taskMap, e'.wheels.taskMapPos);
  }
}
