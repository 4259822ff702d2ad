/** `TimeWheelExecutor` as it is written: the specification of each step as a function on
    values, and the class whose methods do those steps in place.

    The scope of the class is a started executor, from the moment its timer thread has
    published the start time until it is shut down. */
module TimeWheelSpec {
  import opened Basics
  import opened WheelArithmetic
  import opened TimingWheel

  const TWO_TO_THE_64: int := 0x1_0000_0000_0000_0000

  type uint64 = x: int | 0 <= x < 0x1_0000_0000_0000_0000

  // ---- The cascade --------------------------------------------------------------------

  /** What one tick of a level comes to: the new wheels, the list that is handed back, and the
      lists destroyed on the way; or a splice outside a wheel, after which the source's
      behaviour is undefined. */
  datatype TickResult = Ticked(wheels: Wheels, out: TaskList, lost: TaskList) | OutOfRange

  /** The level after its current slot was swapped out and its hand moved on. */
  function Advance(w: Level): (r: Level)
    requires w.currentPos < |w.wheel|
  {
    w.(wheel := w.wheel[w.currentPos := []],
       currentPos := if w.currentPos + 1 == |w.wheel| then 0 else w.currentPos + 1)
  }

  ghost predicate SameShape(a: Wheels, b: Wheels) {
    && |a.levels| == |b.levels|
    && forall j :: 0 <= j < |a.levels| ==>
      |a.levels[j].wheel| == |b.levels[j].wheel| && a.levels[j].scale == b.levels[j].scale
  }

  /** `TimingWheelTool::Tick` on level `i`. */
  function Tick(ws: Wheels, i: nat): (r: TickResult)
    requires WellFormed(ws) && i < |ws.levels|
    ensures r.Ticked? ==> WellFormed(r.wheels) && SameShape(ws, r.wheels)
    ensures r.Ticked? ==> forall j :: 0 <= j < i ==> r.wheels.levels[j] == ws.levels[j]
    decreases |ws.levels| - i, 1
  {
    var w := ws.levels[i];
    var out := w.wheel[w.currentPos];
    var ws' := ws.(levels := ws.levels[i := Advance(w)]);
    if w.currentPos + 1 != |w.wheel| then Ticked(ws', out, [])
    else
      match Borrow(ws', i)
      case OutOfRange => OutOfRange
      case Ticked(ws'', _, lost) => Ticked(ws'', out, lost)
  }

  /** `borrow_func` of level `i`. Below the last level, what the next level hands back is
      discarded; behind the last level, the list the map holds for its position is spliced in
      at `tick_count % scale`. */
  function Borrow(ws: Wheels, i: nat): (r: TickResult)
    requires WellFormed(ws) && i < |ws.levels|
    ensures r.Ticked? ==> WellFormed(r.wheels) && SameShape(ws, r.wheels) && r.out == []
    ensures r.Ticked? ==> forall j :: 0 <= j < i ==> r.wheels.levels[j] == ws.levels[j]
    ensures r.Ticked? && i + 1 < |ws.levels| ==> r.wheels.levels[i] == ws.levels[i]
    decreases |ws.levels| - i, 0
  {
    if i + 1 < |ws.levels| then
      match Tick(ws, i + 1)
      case OutOfRange => OutOfRange
      case Ticked(ws', out, lost) => Ticked(ws', [], out + lost)
    else
      var key := ws.taskMapPos;
      if key !in ws.taskMap then Ticked(ws.(taskMapPos := key + 1), [], [])
      else
        var w := ws.levels[i];
        if !Fits(ws.taskMap[key], w.scale, 1, |w.wheel|) then OutOfRange
        else
          var w' := w.(wheel := Distribute(w.wheel, ws.taskMap[key], w.scale, 1));
          Ticked(Wheels(ws.levels[i := w'], ws.taskMap - {key}, key + 1), [], [])
  }

  // ---- Placement ----------------------------------------------------------------------

  /** `x` appended to slot `pos` of level `i`. */
  function AddToSlot(ws: Wheels, i: nat, pos: nat, x: TaskWithTimestamp): Wheels
    requires i < |ws.levels| && pos < |ws.levels[i].wheel|
  {
    var w := ws.levels[i];
    ws.(levels := ws.levels[i := w.(wheel := w.wheel[pos := w.wheel[pos] + [x]])])
  }

  function AddToMap(ws: Wheels, k: nat, x: TaskWithTimestamp): Wheels {
    ws.(taskMap := ws.taskMap[k := AtKey(ws.taskMap, k) + [x]])
  }

  /** The placement loop of `ExecuteAt`, from level `i` on. */
  function Place(ws: Wheels, i: nat, diff: nat, cur: nat, x: TaskWithTimestamp): (r: Wheels)
    requires WellFormed(ws) && i <= |ws.levels|
    ensures WellFormed(r) && SameShape(ws, r) && r.taskMapPos == ws.taskMapPos
    ensures forall j :: 0 <= j < |ws.levels| ==> r.levels[j].currentPos == ws.levels[j].currentPos
    ensures forall j :: 0 <= j < i ==> r.levels[j] == ws.levels[j]
    decreases |ws.levels| - i
  {
    if i == |ws.levels| then AddToMap(ws, diff + cur, x)
    else
      var size := |ws.levels[i].wheel|;
      if diff < size then AddToSlot(ws, i, (diff + cur) % size, x)
      else Place(ws, i + 1, diff / size, cur / size, x)
  }

  // ---- The executor as a state machine --------------------------------------------------

  datatype Config = Config(sizes: seq<nat>, dt: nat, start: uint64)

  ghost predicate ValidConfig(cfg: Config) {
    ValidSizes(cfg.sizes) && cfg.dt > 0
  }

  /** One accepted `ExecuteAt`: the counter it saw, whether it ran while the timer thread
      was between taking a list and incrementing the counter, and the entry it stored. */
  datatype Insertion = Insertion(tick: nat, delivering: bool, entry: TaskWithTimestamp)

  /** `accepted`, `handed` and `lost` record the past: the insertions so far, the list taken at
      each tick, and what was destroyed. `delivering` is the stretch of the timer loop in which the lock is free
      but `current_tick_count_` has not yet been incremented. */
  datatype Exec = Exec(
    wheels: Wheels, tick: nat, delivering: bool,
    accepted: seq<Insertion>, handed: seq<TaskList>, lost: TaskList)

  datatype Event = ExecuteAt(tp: uint64, task: Task) | TimerTick | TasksFinished

  /** `GetTimestampNs(tp) - start_time_point_` in 64-bit unsigned arithmetic. */
  function VirtualTime(start: uint64, tp: uint64): uint64 {
    (tp - start) % TWO_TO_THE_64
  }

  lemma VirtualTimeTick(v: nat, dt: nat, c: nat)
    requires dt > 0 && v >= c * dt
    ensures v / dt >= c
  {
    QuotientIs(c * dt, dt, c);
    QuotientMonotone(c * dt, v, dt);
  }

  /** The wheels after an insertion. */
  function Placed(ws: Wheels, ins: Insertion): Wheels
    requires WellFormed(ws) && ins.tick <= ins.entry.tickCount
  {
    Place(ws, 0, ins.entry.tickCount - ins.tick, ins.tick, ins.entry)
  }

  /** The executor after it stored an entry that is not past. */
  function Accept(e: Exec, entry: TaskWithTimestamp): (r: Exec)
    requires WellFormed(e.wheels) && entry.tickCount >= e.tick
    ensures WellFormed(r.wheels) && SameShape(e.wheels, r.wheels)
  {
    var ins := Insertion(e.tick, e.delivering, entry);
    e.(wheels := Placed(e.wheels, ins), accepted := e.accepted + [ins])
  }

  function Insert(cfg: Config, e: Exec, tp: uint64, task: Task): (r: Exec)
    requires cfg.dt > 0 && WellFormed(e.wheels)
    ensures WellFormed(r.wheels) && SameShape(e.wheels, r.wheels)
  {
    var v := VirtualTime(cfg.start, tp);
    if v < e.tick * cfg.dt then e  // `Execute`, which only logs
    else
      VirtualTimeTick(v, cfg.dt, e.tick);
      Accept(e, TaskWithTimestamp(v / cfg.dt, task))
  }

  /** An event; `None` is undefined behaviour. The timer thread ticks when it is not
      delivering and finishes when it is; otherwise its event does nothing. */
  function Step(cfg: Config, e: Exec, ev: Event): (r: Option<Exec>)
    requires cfg.dt > 0 && WellFormed(e.wheels) && |e.wheels.levels| > 0
    ensures r.Some? ==> WellFormed(r.value.wheels) && |r.value.wheels.levels| > 0
  {
    match ev
    case ExecuteAt(tp, task) => Some(Insert(cfg, e, tp, task))
    case TimerTick =>
      if e.delivering then Some(e)
      else (
        match Tick(e.wheels, 0)
        case OutOfRange => None
        case Ticked(ws, out, lost) =>
          Some(e.(wheels := ws, handed := e.handed + [out], lost := e.lost + lost,
                  delivering := out != [],
                  tick := if out == [] then e.tick + 1 else e.tick)))
    case TasksFinished =>
      Some(if e.delivering then e.(delivering := false, tick := e.tick + 1) else e)
  }

  /** The wheels `Initialize` builds. */
  function InitialLevel(sizes: seq<nat>, i: nat): Level
    requires i < |sizes|
  {
    Level(if i == 0 then 0 else 1, Unit(sizes, i + 1), seq(sizes[i], _ => []))
  }

  function InitialWheels(sizes: seq<nat>): Wheels {
    Wheels(seq(|sizes|, i requires 0 <= i < |sizes| => InitialLevel(sizes, i)), map[], 1)
  }

  lemma InitialWellFormed(sizes: seq<nat>)
    requires ValidSizes(sizes)
    ensures WellFormed(InitialWheels(sizes)) && Shaped(InitialWheels(sizes), sizes)
  {
    forall k | 0 <= k <= |sizes|
      ensures Unit(sizes, k) > 0
    {
      UnitPositive(sizes, k);
    }
  }

  lemma {:induction false} InitialHands(sizes: seq<nat>, i: nat)
    requires ValidSizes(sizes) && 1 <= i <= |sizes|
    ensures HandsFrom(InitialWheels(sizes), sizes, i, 1)
    decreases |sizes| - i
  {
    if i < |sizes| {
      InitialHands(sizes, i + 1);
    }
  }

  /** The hands of a newly built cascade are inside their wheels exactly when the sizes are valid. */
  lemma StartsInRangeExactly(sizes: seq<nat>)
    requires |sizes| > 0
    ensures WellFormed(InitialWheels(sizes)) <==> ValidSizes(sizes)
  {
    var ws := InitialWheels(sizes);
    if WellFormed(ws) {
      forall i | 0 <= i < |sizes|
        ensures sizes[i] > if i == 0 then 0 else 1
      {
        assert ws.levels[i].currentPos < |ws.levels[i].wheel|;
      }
    } else if ValidSizes(sizes) {
      InitialWellFormed(sizes);
    }
  }

  function Initial(cfg: Config): Exec {
    Exec(InitialWheels(cfg.sizes), 0, false, [], [], [])
  }

  /** A run: any events in any order. */
  ghost function Run(cfg: Config, evs: seq<Event>): (r: Option<Exec>)
    requires ValidConfig(cfg)
    ensures r.Some? ==> WellFormed(r.value.wheels) && |r.value.wheels.levels| > 0
  {
    if evs == [] then
      InitialWellFormed(cfg.sizes);
      Some(Initial(cfg))
    else
      match Run(cfg, evs[..|evs| - 1])
      case None => None
      case Some(e) => Step(cfg, e, evs[|evs| - 1])
  }

  lemma RunStep(cfg: Config, evs: seq<Event>, ev: Event)
    requires ValidConfig(cfg) && Run(cfg, evs).Some?
    ensures Run(cfg, evs + [ev]) == Step(cfg, Run(cfg, evs).value, ev)
  {
    assert (evs + [ev])[..|evs|] == evs;
  }
}
