/** The timer loop with its clock: the executor of `TimeWheelSpec` together with the deadlines the
    loop sleeps until and the times the callers of `ExecuteAt` asked for. The clock itself is not
    modelled; what is are the values passed to `sleep_until`. */
module TimeWheelClock {
  import opened Basics
  import opened TimingWheel
  import opened TimeWheelSpec

  const MAX_SLEEP_NS: int := 1_000_000_000

  // ---- One sleep ----------------------------------------------------------------------------

  /** What `j` whole slices come to. */
  function Slept(j: nat): nat {
    j * MAX_SLEEP_NS
  }

  lemma OneMoreSlice(j: nat)
    ensures Slept(j + 1) == Slept(j) + MAX_SLEEP_NS
  {
  }

  /** Slice `j` of a sleep of `dt` is not the last one. */
  predicate Unfinished(dt: nat, j: nat) {
    Slept(j + 1) < dt
  }

  /** When slice `j` of a sleep that begins at `last` ends. */
  function SliceEnd(last: int, dt: nat, j: nat): int {
    last + if Unfinished(dt, j) then Slept(j + 1) else dt
  }

  /** The deadlines of one sleep: slices of a second, the last one shorter, up to the first
      after which the state flag reads `kShutdown` or `dt` is used up. */
  ghost predicate Slices(deadlines: seq<int>, last: int, dt: nat, shutdownSeen: nat -> bool) {
    var n := |deadlines|;
    && n > 0
    && (forall j :: 0 <= j < n ==> deadlines[j] == SliceEnd(last, dt, j))
    && (forall j :: 0 <= j < n - 1 ==> !shutdownSeen(j) && Unfinished(dt, j))
    && (shutdownSeen(n - 1) || !Unfinished(dt, n - 1))
  }

  /** No slice is longer than a second; all but the last are a second long, and together they come to
      `dt` unless the flag was read as set. */
  lemma SlicesUpToASecond(deadlines: seq<int>, last: int, dt: nat, shutdownSeen: nat -> bool, j: nat)
    requires Slices(deadlines, last, dt, shutdownSeen) && dt > 0 && j < |deadlines|
    ensures var began := if j == 0 then last else deadlines[j - 1];
      && began < deadlines[j] <= began + 1_000_000_000
      && (j < |deadlines| - 1 ==> deadlines[j] == began + 1_000_000_000 && !shutdownSeen(j))
      && (j == |deadlines| - 1 && !shutdownSeen(j) ==> deadlines[j] == last + dt)
      && deadlines[j] <= last + dt
  {
    OneMoreSlice(j);
    if j > 0 {
      OneMoreSlice(j - 1);
      assert Unfinished(dt, j - 1);
    }
  }

  /** The slice a sleep ends with, when it has got as far as slice `j`. */
  function LastSlice(dt: nat, j: nat, shutdownSeen: nat -> bool): (k: nat)
    ensures k >= j && (shutdownSeen(k) || !Unfinished(dt, k))
    decreases if Slept(j) <= dt then dt - Slept(j) else 0
  {
    OneMoreSlice(j);
    if shutdownSeen(j) || !Unfinished(dt, j) then j else LastSlice(dt, j + 1, shutdownSeen)
  }

  /** The slices of a sleep are fixed by what it reads of the state flag. */
  lemma {:induction false} SlicesEndWithLast(
    deadlines: seq<int>, last: int, dt: nat, shutdownSeen: nat -> bool, j: nat)
    requires Slices(deadlines, last, dt, shutdownSeen) && j < |deadlines|
    ensures LastSlice(dt, j, shutdownSeen) == |deadlines| - 1
    decreases |deadlines| - j
  {
    if j + 1 < |deadlines| {
      assert !shutdownSeen(j) && Unfinished(dt, j);
      SlicesEndWithLast(deadlines, last, dt, shutdownSeen, j + 1);
      assert LastSlice(dt, j, shutdownSeen) == LastSlice(dt, j + 1, shutdownSeen);
    } else {
      assert shutdownSeen(j) || !Unfinished(dt, j);
    }
  }

  // ---- The loop as a state machine ------------------------------------------------------------

  /** `lastLoop` is the loop's `last_loop_time_point`, `slept` whether it has slept for the tick to
      come, `stopping` whether it saw the shutdown flag while sleeping. `deadlines` and `times`
      record the past: the deadline slept until before each tick, and the time asked for in each
      accepted call. */
  datatype Clocked = Clocked(
    exec: Exec, lastLoop: int, slept: bool, stopping: bool, deadlines: seq<int>, times: seq<uint64>)

  /** `SleepOneTick(seen)`: the loop sleeps once, reading `seen(j)` of the flag after slice `j`. */
  datatype ClockedEvent = SleepOneTick(shutdownSeen: nat -> bool) | Does(ev: Event)

  /** Whether an event of the executor can happen now: the timer thread ticks after it has slept. */
  predicate Enabled(c: Clocked, ev: Event) {
    match ev
    case ExecuteAt(_, _) => true
    case TimerTick => c.slept && !c.exec.delivering
    case TasksFinished => c.exec.delivering
  }

  /** What the clock records of an event that took the executor to `e`. */
  function Record(c: Clocked, ev: Event, e: Exec): Clocked {
    match ev
    case ExecuteAt(tp, _) =>
      c.(exec := e, times := if |e.accepted| > |c.exec.accepted| then c.times + [tp] else c.times)
    case TimerTick => c.(exec := e, deadlines := c.deadlines + [c.lastLoop], slept := e.delivering)
    case TasksFinished => c.(exec := e, slept := false)
  }

  /** An event; one that cannot happen now does nothing. After a sleep that saw the shutdown
      there is one more tick, and no further sleep. */
  function ClockedStep(cfg: Config, c: Clocked, ev: ClockedEvent): (r: Option<Clocked>)
    requires cfg.dt > 0 && WellFormed(c.exec.wheels) && |c.exec.wheels.levels| > 0
    ensures r.Some? ==> WellFormed(r.value.exec.wheels) && |r.value.exec.wheels.levels| > 0
  {
    match ev
    case SleepOneTick(seen) =>
      if c.slept || c.stopping then Some(c)
      else
        var j := LastSlice(cfg.dt, 0, seen);
        Some(c.(lastLoop := SliceEnd(c.lastLoop, cfg.dt, j), stopping := seen(j), slept := true))
    case Does(ev) =>
      if !Enabled(c, ev) then Some(c)
      else
        match Step(cfg, c.exec, ev)
        case None => None
        case Some(e) => Some(Record(c, ev, e))
  }

  function InitialClocked(cfg: Config): Clocked {
    Clocked(Initial(cfg), cfg.start, false, false, [], [])
  }

  ghost function ClockedRun(cfg: Config, evs: seq<ClockedEvent>): (r: Option<Clocked>)
    requires ValidConfig(cfg)
    ensures r.Some? ==> WellFormed(r.value.exec.wheels) && |r.value.exec.wheels.levels| > 0
  {
    if evs == [] then
      InitialWellFormed(cfg.sizes);
      Some(InitialClocked(cfg))
    else
      match ClockedRun(cfg, evs[..|evs| - 1])
      case None => None
      case Some(c) => ClockedStep(cfg, c, evs[|evs| - 1])
  }

  // ---- The deadlines of a run -----------------------------------------------------------------

  /** When tick `k` of an executor begins. */
  function TickStart(cfg: Config, k: nat): int {
    cfg.start + k * cfg.dt
  }

  /** The deadline slept until before tick `k` is where tick `k + 1` begins: the loop adds exactly
      `dt` in every turn, whatever the sleeps and the tasks take. Only a shutdown seen while
      sleeping cuts the last sleep short. */
  ghost predicate NoDrift(cfg: Config, tick: nat, delivering: bool, lastLoop: int, slept: bool, stopping: bool) {
    var due := TickStart(cfg, tick + if slept then 1 else 0);
    && (delivering ==> slept)
    && (if stopping then lastLoop <= due else lastLoop == due)
    && (slept ==> TickStart(cfg, tick) < lastLoop)
  }

  ghost predicate OnSchedule(cfg: Config, c: Clocked) {
    NoDrift(cfg, c.exec.tick, c.exec.delivering, c.lastLoop, c.slept, c.stopping)
  }

  lemma NextTickStart(cfg: Config, k: nat)
    ensures TickStart(cfg, k + 1) == TickStart(cfg, k) + cfg.dt
  {
  }

  lemma StepKeepsSchedule(cfg: Config, c: Clocked, ev: ClockedEvent)
    requires cfg.dt > 0 && WellFormed(c.exec.wheels) && |c.exec.wheels.levels| > 0
    requires OnSchedule(cfg, c) && ClockedStep(cfg, c, ev).Some?
    ensures OnSchedule(cfg, ClockedStep(cfg, c, ev).value)
  {
    NextTickStart(cfg, c.exec.tick);
  }
}
