/** The timing wheel in place: the classes of the source, every method of which is proved to do
    the step of `TimeWheelSpec` and `TimeWheelClock` it stands for. */
module TimeWheelExecutor {
  import opened Basics
  import opened WheelArithmetic
  import opened TimingWheel
  import opened TimeWheelSpec
  import opened TimeWheelClock

  class TimingWheelTool {
    var currentPos: nat
    const scale: nat
    var wheel: seq<TaskList>

    ghost function View(): Level
      reads this
    {
      Level(currentPos, scale, wheel)
    }

    constructor (startPos: nat, scale: nat, size: nat)
      ensures View() == Level(startPos, scale, seq(size, _ => []))
    {
      this.currentPos := startPos;
      this.scale := scale;
      this.wheel := seq(size, _ => []);
    }

    /** The part of `Tick` that touches only this wheel; `wrapped` asks for the borrow. */
    method SwapOut() returns (taskList: TaskList, wrapped: bool)
      requires currentPos < |wheel|
      modifies this
      ensures View() == Advance(old(View()))
      ensures taskList == old(wheel[currentPos])
      ensures wrapped <==> old(currentPos) + 1 == |old(wheel)|
    {
      taskList := wheel[currentPos];
      wheel := wheel[currentPos := []];
      currentPos := currentPos + 1;
      wrapped := currentPos == |wheel|;
      if wrapped {
        currentPos := 0;
      }
    }
  }

  ghost function LevelsOf(vec: seq<TimingWheelTool>): seq<Level>
    reads vec
  {
    seq(|vec|, i requires 0 <= i < |vec| reads vec => vec[i].View())
  }

  class TimeWheelExecutor {
    const wheelSize: seq<nat>
    const dtCount: nat
    const startTimePoint: uint64
    var timingWheelVec: seq<TimingWheelTool>
    var timingTaskMapPos: nat
    var timingTaskMap: map<nat, TaskList>
    var currentTickCount: nat

    // Where the timer thread is in its loop: its local `last_loop_time_point`, whether it has
    // slept for the tick to come, and whether it saw the shutdown flag while sleeping.
    var lastLoopTimePoint: int
    var slept: bool
    var stopping: bool

    ghost var delivering: bool
    ghost var accepted: seq<Insertion>
    ghost var handed: seq<TaskList>
    ghost var lost: TaskList
    ghost var deadlines: seq<int>
    ghost var times: seq<uint64>

    ghost function Cfg(): Config {
      Config(wheelSize, dtCount, startTimePoint)
    }

    ghost function View(): Wheels
      reads this`timingWheelVec, this`timingTaskMap, this`timingTaskMapPos, timingWheelVec
    {
      Wheels(LevelsOf(timingWheelVec), timingTaskMap, timingTaskMapPos)
    }

    ghost function State(): Exec
      reads this, timingWheelVec
    {
      Exec(View(), currentTickCount, delivering, accepted, handed, lost)
    }

    ghost function Clock(): Clocked
      reads this, timingWheelVec
    {
      Clocked(State(), lastLoopTimePoint, slept, stopping, deadlines, times)
    }

    ghost predicate Valid()
      reads this, timingWheelVec
    {
      && ValidConfig(Cfg())
      && |timingWheelVec| == |wheelSize|
      && (forall i, j :: 0 <= i < j < |timingWheelVec| ==> timingWheelVec[i] != timingWheelVec[j])
      && WellFormed(View())
      && Shaped(View(), wheelSize)
    }

    ghost predicate OnSchedule()
      reads this
    {
      NoDrift(Cfg(), currentTickCount, delivering, lastLoopTimePoint, slept, stopping)
    }

    constructor (wheelSize: seq<nat>, dtCount: nat, startTimePoint: uint64)
      requires ValidSizes(wheelSize) && dtCount > 0
      ensures Valid() && OnSchedule() && fresh(timingWheelVec)
      ensures Cfg() == Config(wheelSize, dtCount, startTimePoint)
      ensures Clock() == InitialClocked(Cfg())
    {
      var vec: seq<TimingWheelTool> := [];
      var curScale := 1;
      for ii := 0 to |wheelSize|
        invariant |vec| == ii && curScale == Unit(wheelSize, ii) && fresh(vec)
        invariant forall k :: 0 <= k < ii ==> vec[k].View() == InitialLevel(wheelSize, k)
        invariant forall j, k :: 0 <= j < k < ii ==> vec[j] != vec[k]
      {
        var startPos := if ii == 0 then 0 else 1;
        curScale := curScale * wheelSize[ii];
        var tool := new TimingWheelTool(startPos, curScale, wheelSize[ii]);
        vec := vec + [tool];
      }
      this.wheelSize := wheelSize;
      this.dtCount := dtCount;
      this.startTimePoint := startTimePoint;
      this.timingWheelVec := vec;
      this.timingTaskMap := map[];
      this.timingTaskMapPos := 1;
      this.currentTickCount := 0;
      this.lastLoopTimePoint := startTimePoint;
      this.slept, this.stopping := false, false;
      this.delivering, this.accepted, this.handed, this.lost := false, [], [], [];
      this.deadlines, this.times := [], [];
      new;
      assert View().levels == InitialWheels(wheelSize).levels;
      InitialWellFormed(wheelSize);
    }

    /** `timing_wheel_vec_[i].Tick()`. */
    method Tick(i: nat) returns (inRange: bool, taskList: TaskList, ghost destroyed: TaskList)
      requires Valid() && i < |timingWheelVec|
      modifies this`timingTaskMap, this`timingTaskMapPos, timingWheelVec
      ensures inRange <==> TimeWheelSpec.Tick(old(View()), i).Ticked?
      ensures inRange ==>
        Valid() && TimeWheelSpec.Tick(old(View()), i) == Ticked(View(), taskList, destroyed)
      decreases |timingWheelVec| - i, 1
    {
      var wrapped;
      assert View().levels[i].currentPos < |View().levels[i].wheel|;
      taskList, wrapped := timingWheelVec[i].SwapOut();
      inRange, destroyed := true, [];
      ghost var ws := old(View());
      assert View().levels == ws.levels[i := Advance(ws.levels[i])];
      if wrapped {
        inRange, destroyed := BorrowFunc(i);
      }
    }

    /** `borrow_func` of level `i`. */
    method BorrowFunc(i: nat) returns (inRange: bool, ghost destroyed: TaskList)
      requires Valid() && i < |timingWheelVec|
      modifies this`timingTaskMap, this`timingTaskMapPos, timingWheelVec
      ensures inRange <==> Borrow(old(View()), i).Ticked?
      ensures inRange ==> Valid() && Borrow(old(View()), i) == Ticked(View(), [], destroyed)
      decreases |timingWheelVec| - i, 0
    {
      inRange, destroyed := true, [];
      if i < |wheelSize| - 1 {
        var taskList;
        inRange, taskList, destroyed := Tick(i + 1);
        destroyed := taskList + destroyed;  // the source lets the list go out of scope
      } else {
        inRange := BorrowFromMap(i);
      }
    }

    /** The branch of `borrow_func` for the last level. */
    method BorrowFromMap(i: nat) returns (inRange: bool)
      requires Valid() && i + 1 == |timingWheelVec|
      modifies this`timingTaskMap, this`timingTaskMapPos, timingWheelVec[i]
      ensures inRange <==> Borrow(old(View()), i).Ticked?
      ensures inRange ==> Valid() && Borrow(old(View()), i) == Ticked(View(), [], [])
    {
      var taskList := [];
      var key := timingTaskMapPos;
      timingTaskMapPos := timingTaskMapPos + 1;
      if key in timingTaskMap {
        taskList := timingTaskMap[key];
        timingTaskMap := timingTaskMap - {key};
      }
      ghost var w := View().levels[i];
      assert w.scale > 0;
      inRange := Splice(timingWheelVec[i], taskList);
      if inRange {
        assert View().levels ==
          old(View()).levels[i := w.(wheel := Distribute(w.wheel, taskList, w.scale, 1))];
      }
    }

    /** The redistribution loop, up to the first index outside the wheel. */
    method Splice(tool: TimingWheelTool, list: TaskList) returns (inRange: bool)
      requires tool.scale > 0
      modifies tool
      ensures tool.currentPos == old(tool.currentPos)
      ensures inRange <==> Fits(list, tool.scale, 1, |old(tool.wheel)|)
      ensures inRange ==> tool.wheel == Distribute(old(tool.wheel), list, tool.scale, 1)
    {
      var taskList := list;
      while taskList != []
        invariant tool.currentPos == old(tool.currentPos) && |tool.wheel| == |old(tool.wheel)|
        invariant Fits(list, tool.scale, 1, |tool.wheel|) <==> Fits(taskList, tool.scale, 1, |tool.wheel|)
        invariant Fits(taskList, tool.scale, 1, |tool.wheel|) ==>
          Distribute(tool.wheel, taskList, tool.scale, 1) == Distribute(old(tool.wheel), list, tool.scale, 1)
        decreases |taskList|
      {
        var pos := taskList[0].tickCount % tool.scale;
        assert pos == SlotIndex(taskList[0].tickCount, tool.scale, 1);
        assert taskList == [taskList[0]] + taskList[1..];
        if pos >= |tool.wheel| {
          return false;
        }
        tool.wheel := tool.wheel[pos := tool.wheel[pos] + [taskList[0]]];
        taskList := taskList[1..];
      }
      return true;
    }
  
    /** `ExecuteAt`: a request is rejected exactly when its tick-aligned time has passed. */
    method ExecuteAt(tp: uint64, task: Task)
      requires Valid()
      modifies this`timingTaskMap, this`accepted, this`times, timingWheelVec
      ensures Valid() && State() == Insert(Cfg(), old(State()), tp, task)
      ensures ClockedStep(Cfg(), old(Clock()), Does(Event.ExecuteAt(tp, task))) == Some(Clock())
    {
      var virtualTp: int := (tp - startTimePoint) % TWO_TO_THE_64;
      if virtualTp < currentTickCount * dtCount {
        return;
      }
      VirtualTimeTick(virtualTp, dtCount, currentTickCount);
      AcceptEntry(TaskWithTimestamp(virtualTp / dtCount, task));
      times := times + [tp];
    }

    method AcceptEntry(entry: TaskWithTimestamp)
      requires Valid() && entry.tickCount >= currentTickCount
      modifies this`timingTaskMap, this`accepted, timingWheelVec
      ensures Valid() && State() == Accept(old(State()), entry)
    {
      Store(entry.tickCount - currentTickCount, entry);
      accepted := accepted + [Insertion(currentTickCount, delivering, entry)];
    }

    method EmplaceBack(i: nat, pos: nat, entry: TaskWithTimestamp)
      requires Valid() && i < |timingWheelVec| && pos < |View().levels[i].wheel|
      modifies timingWheelVec[i]
      ensures Valid() && View() == AddToSlot(old(View()), i, pos, entry)
    {
      ghost var ws := AddToSlot(View(), i, pos, entry);
      var tool := timingWheelVec[i];
      tool.wheel := tool.wheel[pos := tool.wheel[pos] + [entry]];
      assert View().levels == ws.levels;
    }

    /** The placement loop of `ExecuteAt` and what it does where it ends. */
    method Store(diff: nat, entry: TaskWithTimestamp)
      requires Valid()
      modifies this`timingTaskMap, timingWheelVec
      ensures Valid() && View() == Place(old(View()), 0, diff, currentTickCount, entry)
    {
      var ii, diffTickCount, tmpCurrentTickCount :=
        Locate(wheelSize, diff, currentTickCount, View(), entry);
      if ii < |wheelSize| {
        EmplaceBack(ii, (diffTickCount + tmpCurrentTickCount) % wheelSize[ii], entry);
      } else {
        var key := diffTickCount + tmpCurrentTickCount;
        timingTaskMap := timingTaskMap[key := AtKey(timingTaskMap, key) + [entry]];
      }
    }

    /** The start of the current tick: the earliest time, from the start of the executor on, that
        `ExecuteAt` does not reject. */
    method Now() returns (ns: int)
      requires Valid()
      ensures ns == currentTickCount * dtCount + startTimePoint
      ensures forall tp: uint64, task :: tp >= startTimePoint ==>
        (Insert(Cfg(), State(), tp, task) == State() <==> tp < ns)
    {
      ns := currentTickCount * dtCount + startTimePoint;
      forall tp: uint64, task | tp >= startTimePoint
        ensures Insert(Cfg(), State(), tp, task) == State() <==> tp < ns
      {
        RejectedExactly(Cfg(), State(), tp, task);
      }
    }

    /** The sleeping part of one turn of `TimerLoop`. */
    method SleepOneTick(shutdownSeen: nat -> bool) returns (slices: seq<int>)
      requires Valid() && OnSchedule() && !slept && !stopping
      modifies this`lastLoopTimePoint, this`slept, this`stopping
      ensures Valid() && OnSchedule() && slept
      ensures ClockedStep(Cfg(), old(Clock()), ClockedEvent.SleepOneTick(shutdownSeen)) == Some(Clock())
      ensures Slices(slices, old(lastLoopTimePoint), dtCount, shutdownSeen)
      ensures lastLoopTimePoint == slices[|slices| - 1]
      ensures !stopping ==> lastLoopTimePoint == old(lastLoopTimePoint) + dtCount
    {
      slices := Sleep(lastLoopTimePoint, dtCount, shutdownSeen);
      SlicesEndWithLast(slices, lastLoopTimePoint, dtCount, shutdownSeen, 0);
      StepKeepsSchedule(Cfg(), Clock(), ClockedEvent.SleepOneTick(shutdownSeen));
      lastLoopTimePoint := slices[|slices| - 1];
      stopping := shutdownSeen(|slices| - 1);
      slept := true;
    }

    /** `timing_wheel_vec_[0].Tick()` as the timer loop calls it. */
    method TakeFirst() returns (inRange: bool, taskList: TaskList)
      requires Valid()
      modifies this`timingTaskMap, this`timingTaskMapPos, this`handed, this`lost, timingWheelVec
      ensures inRange <==> TimeWheelSpec.Tick(old(View()), 0).Ticked?
      ensures inRange ==> Valid() && handed == old(handed) + [taskList]
      ensures inRange ==> var r := TimeWheelSpec.Tick(old(View()), 0);
        taskList == r.out && State() == old(State()).(
          wheels := r.wheels, handed := old(handed) + [r.out], lost := old(lost) + r.lost)
    {
      ghost var destroyed;
      inRange, taskList, destroyed := Tick(0);
      handed, lost := handed + [taskList], lost + destroyed;
    }

    /** After the tick: go on to run the tasks with the lock released, or count the tick at once. */
    method DeliverOrCount(taskList: TaskList)
      requires Valid() && OnSchedule() && slept && !delivering
      modifies this`delivering, this`currentTickCount, this`slept
      ensures Valid() && OnSchedule() && slept == delivering == (taskList != [])
      ensures State() == old(State()).(delivering := taskList != [],
        tick := if taskList == [] then old(currentTickCount) + 1 else old(currentTickCount))
    {
      if taskList != [] {
        delivering := true;
      } else {
        CountTick();
      }
    }

    method TickAndCount() returns (inRange: bool, taskList: TaskList)
      requires Valid() && OnSchedule() && slept && !delivering
      modifies this`timingTaskMap, this`timingTaskMapPos, this`handed, this`lost
      modifies this`delivering, this`currentTickCount, this`slept, timingWheelVec
      ensures inRange ==> Valid() && OnSchedule() && slept == delivering && handed == old(handed) + [taskList]
      ensures Step(Cfg(), old(State()), Event.TimerTick) == if inRange then Some(State()) else None
    {
      ghost var before := State();
      inRange, taskList := TakeFirst();
      if inRange {
        ghost var taken := State();
        DeliverOrCount(taskList);
        assert State() == taken.(delivering := taskList != [],
          tick := if taskList == [] then before.tick + 1 else before.tick);
      }
    }

    /** The locked part of one turn of the timer loop. */
    method TimerTick() returns (inRange: bool, taskList: TaskList)
      requires Valid() && OnSchedule() && slept && !delivering
      modifies this`timingTaskMap, this`timingTaskMapPos, this`handed, this`lost, this`deadlines
      modifies this`delivering, this`currentTickCount, this`slept, timingWheelVec
      ensures inRange ==> Valid() && OnSchedule() && slept == delivering && handed == old(handed) + [taskList]
      ensures ClockedStep(Cfg(), old(Clock()), Does(Event.TimerTick)) == if inRange then Some(Clock()) else None
    {
      inRange, taskList := TickAndCount();
      deadlines := deadlines + [lastLoopTimePoint];
    }

    /** `++current_tick_count_`. */
    method CountTick()
      requires Valid() && OnSchedule() && slept
      modifies this`currentTickCount, this`delivering, this`slept
      ensures Valid() && OnSchedule() && !slept && !delivering
      ensures currentTickCount == old(currentTickCount) + 1 && View() == old(View())
    {
      currentTickCount := currentTickCount + 1;
      delivering, slept := false, false;
    }

    /** The end of a turn, after the tasks have run: the tick is counted. */
    method TasksFinished()
      requires Valid() && OnSchedule() && delivering
      modifies this`currentTickCount, this`delivering, this`slept
      ensures Valid() && OnSchedule() && !slept
      ensures ClockedStep(Cfg(), old(Clock()), Does(Event.TasksFinished)) == Some(Clock())
    {
      CountTick();
    }
  }

  /** The search of `ExecuteAt` for the level: the first whose size the remaining distance does not
      reach, with the distance and the counter divided down to it. Placing from there on is
      placing from the start. */
  method Locate(sizes: seq<nat>, diff: nat, cur: nat, ghost ws: Wheels, ghost entry: TaskWithTimestamp)
    returns (ii: nat, diffTickCount: nat, tmpCurrentTickCount: nat)
    requires ValidSizes(sizes) && Shaped(ws, sizes) && WellFormed(ws)
    ensures ii <= |sizes| && (ii < |sizes| ==> diffTickCount < sizes[ii])
    ensures Place(ws, 0, diff, cur, entry) == Place(ws, ii, diffTickCount, tmpCurrentTickCount, entry)
  {
    diffTickCount, tmpCurrentTickCount := diff, cur;
    ii := 0;
    while ii < |sizes| && diffTickCount >= sizes[ii]
      invariant ii <= |sizes|
      invariant Place(ws, 0, diff, cur, entry) == Place(ws, ii, diffTickCount, tmpCurrentTickCount, entry)
    {
      diffTickCount := diffTickCount / sizes[ii];
      tmpCurrentTickCount := tmpCurrentTickCount / sizes[ii];
      ii := ii + 1;
    }
  }

  /** The slicing loop; `shutdownSeen(j)` is what the loop reads of the state flag after its
      slice `j`. */
  method Sleep(last: int, dt: nat, shutdownSeen: nat -> bool) returns (deadlines: seq<int>)
    requires dt > 0
    ensures Slices(deadlines, last, dt, shutdownSeen)
  {
    var realDt: int := dt;
    var lastLoopTimePoint := last;
    deadlines := [];
    var again := true;
    while again
      invariant |deadlines| == 0 ==> again
      invariant again ==> realDt == dt - Slept(|deadlines|) && realDt > 0
      invariant again ==> lastLoopTimePoint == last + Slept(|deadlines|)
      invariant forall j :: 0 <= j < |deadlines| ==> deadlines[j] == SliceEnd(last, dt, j)
      invariant forall j :: 0 <= j < |deadlines| - 1 ==> !shutdownSeen(j) && Unfinished(dt, j)
      invariant again && |deadlines| > 0 ==> !shutdownSeen(|deadlines| - 1) && Unfinished(dt, |deadlines| - 1)
      invariant !again ==> shutdownSeen(|deadlines| - 1) || !Unfinished(dt, |deadlines| - 1)
      decreases again, realDt
    {
      ghost var j := |deadlines|;
      OneMoreSlice(j);
      var sleepTime := if realDt > MAX_SLEEP_NS then MAX_SLEEP_NS else realDt;
      realDt := realDt - sleepTime;
      if realDt != 0 && dt < MAX_SLEEP_NS && realDt <= dt {
        sleepTime := sleepTime + realDt;
        realDt := 0;
      }
      lastLoopTimePoint := lastLoopTimePoint + sleepTime;
      assert lastLoopTimePoint == SliceEnd(last, dt, j);
      assert realDt != 0 <==> Unfinished(dt, j);
      deadlines := deadlines + [lastLoopTimePoint];
      again := !shutdownSeen(|deadlines| - 1) && realDt != 0;
    }
  }

  /** A time that is not before the start is rejected exactly if the current tick begins after it. */
  lemma RejectedExactly(cfg: Config, e: Exec, tp: uint64, task: Task)
    requires cfg.dt > 0 && WellFormed(e.wheels) && tp >= cfg.start
    ensures Insert(cfg, e, tp, task) == e <==> tp < TickStart(cfg, e.tick)
  {
    var v := VirtualTime(cfg.start, tp);
    assert v == tp - cfg.start;
    if v >= e.tick * cfg.dt {
      VirtualTimeTick(v, cfg.dt, e.tick);
      assert |Insert(cfg, e, tp, task).accepted| == |e.accepted| + 1;
    }
  }

  /** A time before the start is not rejected for being past: it wraps round to the far future. */
  lemma BeforeStartIsAccepted(cfg: Config, e: Exec, tp: uint64, task: Task)
    requires cfg.dt > 0 && WellFormed(e.wheels) && tp < cfg.start
    ensures var v, log := VirtualTime(cfg.start, tp), Insert(cfg, e, tp, task).accepted;
      && v == TWO_TO_THE_64 - (cfg.start - tp)
      && (log == e.accepted <==> v < e.tick * cfg.dt)
      && (log != e.accepted ==> |log| == |e.accepted| + 1 && log[|e.accepted|].entry.tickCount == v / cfg.dt)
  {
    RemainderIs(tp - cfg.start, TWO_TO_THE_64, -1);
    var v := VirtualTime(cfg.start, tp);
    if v >= e.tick * cfg.dt {
      VirtualTimeTick(v, cfg.dt, e.tick);
    }
  }
}
