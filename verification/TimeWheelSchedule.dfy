/** What the timing wheel, as it is written, does with the tasks it accepts: an exact account,
    for every list of sizes and every interleaving of insertions and ticks, of the tick at which
    each of them is handed out, and of when that is the tick it was scheduled for. */
module TimeWheelSchedule {
  import opened Basics
  import opened WheelArithmetic
  import opened TimingWheel
  import opened TimeWheelSpec

  // ---- The tick at which a task is handed out -------------------------------------------

  function HandCount(tick: nat, delivering: bool): nat {
    if delivering then tick + 1 else tick
  }

  /** The tick at which the executor hands out what it was given by `ins`, or `None` when it
      never does. */
  function DueTick(sizes: seq<nat>, ins: Insertion): Option<nat>
    requires |sizes| > 0 && sizes[0] > 0 && ins.tick <= ins.entry.tickCount
  {
    var s0, t := sizes[0], ins.entry.tickCount;
    var d := t - ins.tick;
    if d < s0 then Some(if ins.delivering && d == 0 then t + s0 else t)
    else if |sizes| > 1 then None
    else
      var key := d / s0 + ins.tick / s0;
      if key <= HandCount(ins.tick, ins.delivering) / s0 then None
      else Some(TickInTurn(key, t, s0))
  }

  /** The tick of turn `key` of the first wheel at which the slot of `t` is taken. */
  function TickInTurn(key: nat, t: nat, s0: nat): (due: nat)
    requires s0 > 0
    ensures due / s0 == key && due % s0 == t % s0
  {
    Compose(key, t % s0, s0);
    key * s0 + t % s0
  }

  /** The condition under which the task is handed out at the tick it was meant for: it lies
      within the first wheel and is not for the very tick being delivered; or there is only one
      wheel, the digits add up without a carry, and its block is not the one just cascaded. */
  predicate OnTime(sizes: seq<nat>, ins: Insertion)
    requires |sizes| > 0 && sizes[0] > 0 && ins.tick <= ins.entry.tickCount
  {
    var s0 := sizes[0];
    var d := ins.entry.tickCount - ins.tick;
    if d < s0 then !(ins.delivering && d == 0)
    else
      && |sizes| == 1
      && ins.tick % s0 + d % s0 < s0
      && !(ins.delivering && ins.tick % s0 + 1 == s0 && d == s0)
  }

  /** The insertions handed out at tick `k`. */
  ghost function Scheduled(sizes: seq<nat>, log: seq<Insertion>, k: nat): multiset<TaskWithTimestamp>
    requires |sizes| > 0 && sizes[0] > 0
    requires LogInOrder(log)
  {
    if log == [] then multiset{}
    else
      var last := log[|log| - 1];
      Scheduled(sizes, log[..|log| - 1], k)
        + (if DueTick(sizes, last) == Some(k) then multiset{last.entry} else multiset{})
  }

  /** The insertions meant for tick `k`: the plain map from ticks to tasks. */
  ghost function Meant(log: seq<Insertion>, k: nat): multiset<TaskWithTimestamp> {
    if log == [] then multiset{}
    else
      var last := log[|log| - 1];
      Meant(log[..|log| - 1], k)
        + (if last.entry.tickCount == k then multiset{last.entry} else multiset{})
  }

  // ---- The invariant --------------------------------------------------------------------

  /** How many copies of `x` the wheels hold that will come out at tick `k`, once `h` slots
      have been taken from the first wheel. */
  ghost function Pending(ws: Wheels, sizes: seq<nat>, h: nat, k: nat, x: TaskWithTimestamp): nat
    requires ValidSizes(sizes) && Shaped(ws, sizes)
  {
    var s0 := sizes[0];
    (if h <= k < h + s0 then multiset(ws.levels[0].wheel[k % s0])[x] else 0)
    + (if |sizes| == 1 && k / s0 > h / s0 && x.tickCount % s0 == k % s0
       then multiset(AtKey(ws.taskMap, k / s0))[x] else 0)
  }

  ghost predicate LogInOrder(log: seq<Insertion>) {
    forall i :: 0 <= i < |log| ==> log[i].tick <= log[i].entry.tickCount
  }

  ghost predicate PendingAgrees(ws: Wheels, sizes: seq<nat>, h: nat, log: seq<Insertion>)
    requires ValidSizes(sizes) && Shaped(ws, sizes) && LogInOrder(log)
  {
    forall k, x :: k >= h ==> Pending(ws, sizes, h, k, x) == Scheduled(sizes, log, k)[x]
  }

  ghost predicate HandedAgrees(handed: seq<TaskList>, sizes: seq<nat>, log: seq<Insertion>)
    requires ValidSizes(sizes) && LogInOrder(log)
  {
    forall k :: 0 <= k < |handed| ==> multiset(handed[k]) == Scheduled(sizes, log, k)
  }

  ghost predicate Inv(cfg: Config, e: Exec)
    requires ValidConfig(cfg)
  {
    var h := |e.handed|;
    && Shaped(e.wheels, cfg.sizes)
    && HandsFrom(e.wheels, cfg.sizes, 0, h)
    && h == HandCount(e.tick, e.delivering)
    && LogInOrder(e.accepted)
    && PendingAgrees(e.wheels, cfg.sizes, h, e.accepted)
    && HandedAgrees(e.handed, cfg.sizes, e.accepted)
  }

  // ---- Hands ----------------------------------------------------------------------------

  /** One tick of level `i` moves its hand, and every hand above it, as the closed form says. */
  lemma {:induction false} TickMovesHands(ws: Wheels, sizes: seq<nat>, i: nat, g: nat)
    requires ValidSizes(sizes) && Shaped(ws, sizes) && WellFormed(ws) && i < |sizes|
    requires HandsFrom(ws, sizes, i, g)
    requires Tick(ws, i).Ticked?
    ensures HandsFrom(Tick(ws, i).wheels, sizes, i, g + 1)
    ensures Shaped(Tick(ws, i).wheels, sizes)
    decreases |sizes| - i
  {
    var w := ws.levels[i];
    var ws' := ws.(levels := ws.levels[i := Advance(w)]);
    StepQuotient(g, sizes[i]);
    HandsFrame(ws, ws', sizes, i + 1, NextHand(g, sizes[i]));
    if w.currentPos + 1 == |w.wheel| {
      var ws'' := Tick(ws, i).wheels;
      if i + 1 < |sizes| {
        TickMovesHands(ws', sizes, i + 1, NextHand(g, sizes[i]));
      } else {
        assert ws''.taskMapPos == ws'.taskMapPos + 1;
      }
    }
  }

  // ---- One tick -------------------------------------------------------------------------

  /** A carry out of the first of several wheels does not reach back into it. */
  lemma TickFirstOfMany(ws: Wheels)
    requires WellFormed(ws) && |ws.levels| > 1 && Tick(ws, 0).Ticked?
    ensures Tick(ws, 0).wheels.levels[0] == Advance(ws.levels[0])
    ensures Tick(ws, 0).out == ws.levels[0].wheel[ws.levels[0].currentPos]
  {
  }

  /** Taking slot `h % s0` hands out exactly what was pending for tick `h`. */
  lemma TickHandsOut(ws: Wheels, sizes: seq<nat>, h: nat, x: TaskWithTimestamp)
    requires ValidSizes(sizes) && Shaped(ws, sizes) && WellFormed(ws)
    requires HandsFrom(ws, sizes, 0, h) && Tick(ws, 0).Ticked?
    ensures multiset(Tick(ws, 0).out)[x] == Pending(ws, sizes, h, h, x)
  {
  }

  /** The slot part of `Pending` before any carry: the emptied slot now stands for tick
      `h + s0`, every other slot stands for the tick it stood for. */
  lemma AdvanceSlots(w: Level, h: nat, k: nat, x: TaskWithTimestamp)
    requires |w.wheel| > 0 && w.currentPos == h % |w.wheel| && k > h
    ensures var s0 := |w.wheel|;
      (if h + 1 <= k < h + 1 + s0 then multiset(Advance(w).wheel[k % s0])[x] else 0)
      == (if h <= k < h + s0 then multiset(w.wheel[k % s0])[x] else 0)
  {
    var s0 := |w.wheel|;
    QuotientShift(h, s0);
    if h < k < h + s0 && k % s0 == h % s0 {
      SameRemainder(k, h, s0);
    }
  }

  /** A tick leaves what is pending for later ticks as it was. */
  lemma TickKeepsPending(ws: Wheels, sizes: seq<nat>, h: nat, k: nat, x: TaskWithTimestamp)
    requires ValidSizes(sizes) && Shaped(ws, sizes) && WellFormed(ws)
    requires HandsFrom(ws, sizes, 0, h) && Tick(ws, 0).Ticked? && k > h
    ensures Shaped(Tick(ws, 0).wheels, sizes)
    ensures Pending(Tick(ws, 0).wheels, sizes, h + 1, k, x) == Pending(ws, sizes, h, k, x)
  {
    TickMovesHands(ws, sizes, 0, h);
    AdvanceSlots(ws.levels[0], h, k, x);
    if |sizes| == 1 {
      TickKeepsPendingOneLevel(ws, sizes, h, k, x);
    } else {
      TickFirstOfMany(ws);
    }
  }

  lemma TickKeepsPendingOneLevel(ws: Wheels, sizes: seq<nat>, h: nat, k: nat, x: TaskWithTimestamp)
    requires ValidSizes(sizes) && Shaped(ws, sizes) && WellFormed(ws) && |sizes| == 1
    requires HandsFrom(ws, sizes, 0, h) && Tick(ws, 0).Ticked? && k > h
    requires Shaped(Tick(ws, 0).wheels, sizes)
    ensures Pending(Tick(ws, 0).wheels, sizes, h + 1, k, x) == Pending(ws, sizes, h, k, x)
  {
    var s0 := sizes[0];
    var w := Advance(ws.levels[0]);
    AdvanceSlots(ws.levels[0], h, k, x);
    StepQuotient(h, s0);
    assert Unit(sizes, 1) == Unit(sizes, 0) * s0 == s0;
    assert ws.taskMapPos == 1 + h / s0 by { assert HandsFrom(ws, sizes, 1, 1 + h / s0); }
    if h % s0 + 1 == s0 {
      BlockIsWindow(k, h + 1, s0);
      var key := ws.taskMapPos;
      var list := AtKey(ws.taskMap, key);
      if key in ws.taskMap {
        DistributeCounts(w.wheel, list, s0, 1, k % s0, x);
      }
      QuotientMonotone(h + 1, k, s0);
    }
  }

  // ---- One insertion ----------------------------------------------------------------------

  /** The insertion comes out at tick `k`, and is a copy of `x`. */
  ghost predicate Adds(sizes: seq<nat>, ins: Insertion, k: nat, x: TaskWithTimestamp)
    requires |sizes| > 0 && sizes[0] > 0 && ins.tick <= ins.entry.tickCount
  {
    DueTick(sizes, ins) == Some(k) && x == ins.entry
  }

  lemma AddToSlotPending(
    ws: Wheels, sizes: seq<nat>, entry: TaskWithTimestamp, due: nat, h: nat, k: nat, x: TaskWithTimestamp)
    requires ValidSizes(sizes) && Shaped(ws, sizes)
    requires h <= due < h + sizes[0] && k >= h
    ensures Pending(AddToSlot(ws, 0, due % sizes[0], entry), sizes, h, k, x)
      == Pending(ws, sizes, h, k, x) + (if due == k && x == entry then 1 else 0)
  {
    if k < h + sizes[0] && k % sizes[0] == due % sizes[0] {
      SameRemainder(k, due, sizes[0]);
    }
  }

  lemma AddToMapPending(
    ws: Wheels, sizes: seq<nat>, entry: TaskWithTimestamp, due: nat, h: nat, k: nat, x: TaskWithTimestamp)
    requires ValidSizes(sizes) && Shaped(ws, sizes) && |sizes| == 1
    requires due % sizes[0] == entry.tickCount % sizes[0]
    ensures Pending(AddToMap(ws, due / sizes[0], entry), sizes, h, k, x)
      == Pending(ws, sizes, h, k, x)
        + (if due / sizes[0] > h / sizes[0] && due == k && x == entry then 1 else 0)
  {
    if k / sizes[0] == due / sizes[0] && k % sizes[0] == due % sizes[0] {
      SameDigits(k, due, sizes[0]);
    }
  }

  lemma PlaceNear(
    ws: Wheels, sizes: seq<nat>, ins: Insertion, k: nat, x: TaskWithTimestamp)
    requires ValidSizes(sizes) && Shaped(ws, sizes) && WellFormed(ws)
    requires ins.tick <= ins.entry.tickCount && k >= HandCount(ins.tick, ins.delivering)
    requires ins.entry.tickCount - ins.tick < sizes[0]
    ensures var h := HandCount(ins.tick, ins.delivering);
      Pending(Placed(ws, ins), sizes, h, k, x)
      == Pending(ws, sizes, h, k, x) + (if Adds(sizes, ins, k, x) then 1 else 0)
  {
    var t, h := ins.entry.tickCount, HandCount(ins.tick, ins.delivering);
    QuotientShift(t, sizes[0]);
    assert Placed(ws, ins) == AddToSlot(ws, 0, t % sizes[0], ins.entry);
    AddToSlotPending(ws, sizes, ins.entry, DueTick(sizes, ins).value, h, k, x);
  }

  lemma PlaceFarWithOneWheel(
    ws: Wheels, sizes: seq<nat>, ins: Insertion, k: nat, x: TaskWithTimestamp)
    requires ValidSizes(sizes) && Shaped(ws, sizes) && WellFormed(ws)
    requires ins.tick <= ins.entry.tickCount && k >= HandCount(ins.tick, ins.delivering)
    requires ins.entry.tickCount - ins.tick >= sizes[0] && |sizes| == 1
    ensures var h := HandCount(ins.tick, ins.delivering);
      Pending(Placed(ws, ins), sizes, h, k, x)
      == Pending(ws, sizes, h, k, x) + (if Adds(sizes, ins, k, x) then 1 else 0)
  {
    var due := FarDue(sizes, ins);
    PlacedFar(ws, sizes, ins);
    AddToMapPending(ws, sizes, ins.entry, due, HandCount(ins.tick, ins.delivering), k, x);
  }

  /** Where one wheel puts what lies beyond it, and when that comes out. */
  function FarDue(sizes: seq<nat>, ins: Insertion): (due: nat)
    requires |sizes| == 1 && sizes[0] > 0 && ins.entry.tickCount >= ins.tick + sizes[0]
    ensures due % sizes[0] == ins.entry.tickCount % sizes[0]
    ensures DueTick(sizes, ins) == if due / sizes[0] > HandCount(ins.tick, ins.delivering) / sizes[0]
      then Some(due) else None
  {
    TickInTurn((ins.entry.tickCount - ins.tick) / sizes[0] + ins.tick / sizes[0], ins.entry.tickCount, sizes[0])
  }

  lemma PlacedFar(ws: Wheels, sizes: seq<nat>, ins: Insertion)
    requires |sizes| == 1 && sizes[0] > 0 && Shaped(ws, sizes) && WellFormed(ws)
    requires ins.entry.tickCount >= ins.tick + sizes[0]
    ensures Placed(ws, ins) == AddToMap(ws, FarDue(sizes, ins) / sizes[0], ins.entry)
  {
    var d, s0 := ins.entry.tickCount - ins.tick, sizes[0];
    assert Placed(ws, ins) == Place(ws, 1, d / s0, ins.tick / s0, ins.entry);
  }

  lemma PlaceFarWithMany(
    ws: Wheels, sizes: seq<nat>, ins: Insertion, k: nat, x: TaskWithTimestamp)
    requires ValidSizes(sizes) && Shaped(ws, sizes) && WellFormed(ws)
    requires ins.tick <= ins.entry.tickCount && k >= HandCount(ins.tick, ins.delivering)
    requires ins.entry.tickCount - ins.tick >= sizes[0] && |sizes| > 1
    ensures var h := HandCount(ins.tick, ins.delivering);
      Pending(Placed(ws, ins), sizes, h, k, x)
      == Pending(ws, sizes, h, k, x) + (if Adds(sizes, ins, k, x) then 1 else 0)
  {
    var s0, d := sizes[0], ins.entry.tickCount - ins.tick;
    assert Placed(ws, ins) == Place(ws, 1, d / s0, ins.tick / s0, ins.entry);
  }

  /** Placing a task adds it to what is pending for its due tick, and to nothing else. */
  lemma PlaceAddsPending(
    ws: Wheels, sizes: seq<nat>, ins: Insertion, k: nat, x: TaskWithTimestamp)
    requires ValidSizes(sizes) && Shaped(ws, sizes) && WellFormed(ws)
    requires ins.tick <= ins.entry.tickCount && k >= HandCount(ins.tick, ins.delivering)
    ensures var h := HandCount(ins.tick, ins.delivering);
      Pending(Placed(ws, ins), sizes, h, k, x)
      == Pending(ws, sizes, h, k, x) + (if Adds(sizes, ins, k, x) then 1 else 0)
  {
    if ins.entry.tickCount - ins.tick < sizes[0] {
      PlaceNear(ws, sizes, ins, k, x);
    } else if |sizes| == 1 {
      PlaceFarWithOneWheel(ws, sizes, ins, k, x);
    } else {
      PlaceFarWithMany(ws, sizes, ins, k, x);
    }
  }

  /** `x` put on level `i` at block `k`, or behind the last level in the map, under key `k`. */
  ghost function PutAt(ws: Wheels, sizes: seq<nat>, i: nat, k: nat, x: TaskWithTimestamp): Wheels
    requires ValidSizes(sizes) && Shaped(ws, sizes) && i <= |sizes|
  {
    if i < |sizes| then AddToSlot(ws, i, k % sizes[i], x) else AddToMap(ws, k, x)
  }

  /** The placement loop in closed form: the entry goes to the first level `i` whose size its
      distance, in blocks of that level, does not reach, at the block of the distance plus the
      block of the counter; or to the map, under the key computed the same way. */
  lemma {:induction false} PlacedExactly(
    ws: Wheels, sizes: seq<nat>, j: nat, i: nat, d: nat, c: nat, x: TaskWithTimestamp)
    requires ValidSizes(sizes) && Shaped(ws, sizes) && WellFormed(ws) && j <= i <= |sizes|
    requires forall l :: j <= l < i ==> Block(sizes, l, d) >= sizes[l]
    requires i < |sizes| ==> Block(sizes, i, d) < sizes[i]
    ensures var k := Block(sizes, i, d) + Block(sizes, i, c);
      Place(ws, j, Block(sizes, j, d), Block(sizes, j, c), x)
      == PutAt(ws, sizes, i, k, x)
    decreases i - j
  {
    if j < i {
      PlacePassesOn(ws, sizes, j, d, c, x);
      PlacedExactly(ws, sizes, j + 1, i, d, c, x);
    } else {
      PlaceEnds(ws, sizes, i, Block(sizes, i, d), Block(sizes, i, c), x);
    }
  }

  lemma PlacePassesOn(ws: Wheels, sizes: seq<nat>, j: nat, d: nat, c: nat, x: TaskWithTimestamp)
    requires ValidSizes(sizes) && Shaped(ws, sizes) && WellFormed(ws) && j < |sizes|
    requires Block(sizes, j, d) >= sizes[j]
    ensures Place(ws, j, Block(sizes, j, d), Block(sizes, j, c), x)
      == Place(ws, j + 1, Block(sizes, j + 1, d), Block(sizes, j + 1, c), x)
  {
    assert Block(sizes, j + 1, d) == Block(sizes, j, d) / sizes[j];
    assert Block(sizes, j + 1, c) == Block(sizes, j, c) / sizes[j];
  }

  lemma PlaceEnds(ws: Wheels, sizes: seq<nat>, i: nat, diff: nat, cur: nat, x: TaskWithTimestamp)
    requires ValidSizes(sizes) && Shaped(ws, sizes) && WellFormed(ws) && i <= |sizes|
    requires i < |sizes| ==> diff < sizes[i]
    ensures Place(ws, i, diff, cur, x) == PutAt(ws, sizes, i, diff + cur, x)
  {
  }

  /** Nothing comes out at a tick that was already taken when it was inserted. */
  lemma DueNotBefore(sizes: seq<nat>, ins: Insertion)
    requires |sizes| > 0 && sizes[0] > 0 && ins.tick <= ins.entry.tickCount
    ensures DueTick(sizes, ins).Some? ==>
      DueTick(sizes, ins).value >= HandCount(ins.tick, ins.delivering)
  {
    var s0, t := sizes[0], ins.entry.tickCount;
    var h, d := HandCount(ins.tick, ins.delivering), t - ins.tick;
    if d >= s0 && |sizes| == 1 {
      LaterBlock(h, TickInTurn(d / s0 + ins.tick / s0, t, s0), s0);
    }
  }

  lemma LaterBlock(a: nat, b: nat, d: nat)
    requires d > 0
    ensures a / d < b / d ==> a < b
  {
    if b <= a {
      QuotientMonotone(b, a, d);
    }
  }

  // ---- All runs ---------------------------------------------------------------------------

  lemma InitialInv(cfg: Config)
    requires ValidConfig(cfg)
    ensures Inv(cfg, Initial(cfg))
  {
    InitialWellFormed(cfg.sizes);
    InitialHands(cfg.sizes, 1);
  }

  lemma ScheduledAppend(sizes: seq<nat>, log: seq<Insertion>, ins: Insertion, k: nat)
    requires |sizes| > 0 && sizes[0] > 0
    requires LogInOrder(log)
    requires ins.tick <= ins.entry.tickCount
    ensures Scheduled(sizes, log + [ins], k) == Scheduled(sizes, log, k)
      + (if DueTick(sizes, ins) == Some(k) then multiset{ins.entry} else multiset{})
  {
    assert (log + [ins])[..|log|] == log;
  }

  lemma InsertKeepsInv(cfg: Config, e: Exec, tp: uint64, task: Task)
    requires ValidConfig(cfg) && WellFormed(e.wheels) && Inv(cfg, e)
    ensures Inv(cfg, Insert(cfg, e, tp, task))
  {
    var v := VirtualTime(cfg.start, tp);
    if v >= e.tick * cfg.dt {
      VirtualTimeTick(v, cfg.dt, e.tick);
      AcceptKeepsInv(cfg, e, TaskWithTimestamp(v / cfg.dt, task));
    }
  }

  lemma AcceptKeepsInv(cfg: Config, e: Exec, entry: TaskWithTimestamp)
    requires ValidConfig(cfg) && WellFormed(e.wheels) && Inv(cfg, e)
    requires entry.tickCount >= e.tick
    ensures Inv(cfg, Accept(e, entry))
  {
    var ins := Insertion(e.tick, e.delivering, entry);
    PlacedKeepsHands(e.wheels, cfg.sizes, |e.handed|, ins);
    AcceptKeepsPending(e.wheels, cfg.sizes, e.accepted, ins);
    AcceptKeepsHanded(e.handed, cfg.sizes, e.accepted, ins);
  }

  lemma PlacedKeepsHands(ws: Wheels, sizes: seq<nat>, h: nat, ins: Insertion)
    requires ValidSizes(sizes) && Shaped(ws, sizes) && WellFormed(ws) && ins.tick <= ins.entry.tickCount
    requires HandsFrom(ws, sizes, 0, h)
    ensures Shaped(Placed(ws, ins), sizes) && HandsFrom(Placed(ws, ins), sizes, 0, h)
  {
    HandsFrame(ws, Placed(ws, ins), sizes, 0, h);
  }

  lemma AcceptKeepsPending(ws: Wheels, sizes: seq<nat>, log: seq<Insertion>, ins: Insertion)
    requires ValidSizes(sizes) && Shaped(ws, sizes) && WellFormed(ws) && LogInOrder(log)
    requires ins.tick <= ins.entry.tickCount
    requires PendingAgrees(ws, sizes, HandCount(ins.tick, ins.delivering), log)
    ensures PendingAgrees(Placed(ws, ins), sizes, HandCount(ins.tick, ins.delivering), log + [ins])
  {
    var ws' := Placed(ws, ins);
    var h := HandCount(ins.tick, ins.delivering);
    forall k, x | k >= h
      ensures Pending(ws', sizes, h, k, x) == Scheduled(sizes, log + [ins], k)[x]
    {
      PlaceAddsPending(ws, sizes, ins, k, x);
      ScheduledAppend(sizes, log, ins, k);
    }
  }

  lemma AcceptKeepsHanded(handed: seq<TaskList>, sizes: seq<nat>, log: seq<Insertion>, ins: Insertion)
    requires ValidSizes(sizes) && LogInOrder(log) && HandedAgrees(handed, sizes, log)
    requires ins.tick <= ins.entry.tickCount && |handed| == HandCount(ins.tick, ins.delivering)
    ensures HandedAgrees(handed, sizes, log + [ins])
  {
    forall k | 0 <= k < |handed|
      ensures multiset(handed[k]) == Scheduled(sizes, log + [ins], k)
    {
      DueNotBefore(sizes, ins);
      ScheduledAppend(sizes, log, ins, k);
    }
  }

  lemma TimerTickKeepsInv(cfg: Config, e: Exec)
    requires ValidConfig(cfg) && WellFormed(e.wheels) && Inv(cfg, e)
    requires !e.delivering && Tick(e.wheels, 0).Ticked?
    ensures Inv(cfg, Step(cfg, e, TimerTick).value)
  {
    var e' := Step(cfg, e, TimerTick).value;
    var h, out := |e.handed|, Tick(e.wheels, 0).out;
    TickMovesHands(e.wheels, cfg.sizes, 0, h);
    forall x
      ensures multiset(out)[x] == Scheduled(cfg.sizes, e.accepted, h)[x]
    {
      TickHandsOut(e.wheels, cfg.sizes, h, x);
    }
    assert multiset(out) == Scheduled(cfg.sizes, e.accepted, h);
    forall k, x | k >= h + 1
      ensures Pending(e'.wheels, cfg.sizes, h + 1, k, x) == Scheduled(cfg.sizes, e'.accepted, k)[x]
    {
      TickKeepsPending(e.wheels, cfg.sizes, h, k, x);
    }
  }

  lemma StepKeepsInv(cfg: Config, e: Exec, ev: Event)
    requires ValidConfig(cfg) && WellFormed(e.wheels) && |e.wheels.levels| > 0
    requires Inv(cfg, e) && Step(cfg, e, ev).Some?
    ensures Inv(cfg, Step(cfg, e, ev).value)
  {
    match ev
    case ExecuteAt(tp, task) => InsertKeepsInv(cfg, e, tp, task);
    case TimerTick => if !e.delivering { TimerTickKeepsInv(cfg, e); }
    case TasksFinished =>
  }

  lemma {:induction false} RunKeepsInv(cfg: Config, evs: seq<Event>)
    requires ValidConfig(cfg) && Run(cfg, evs).Some?
    ensures Inv(cfg, Run(cfg, evs).value)
  {
    if evs == [] {
      InitialInv(cfg);
    } else {
      RunKeepsInv(cfg, evs[..|evs| - 1]);
      StepKeepsInv(cfg, Run(cfg, evs[..|evs| - 1]).value, evs[|evs| - 1]);
    }
  }

  // ---- Main results -----------------------------------------------------------------------

  /** In every run, for any sizes, tick `k` hands out exactly the accepted tasks whose due tick
      is `k`, each as often as it was accepted, whatever was inserted in between. */
  lemma HandedOutExactlyWhenDue(cfg: Config, evs: seq<Event>, k: nat)
    requires ValidConfig(cfg) && Run(cfg, evs).Some?
    requires k < |Run(cfg, evs).value.handed|
    ensures var e := Run(cfg, evs).value;
      && LogInOrder(e.accepted)
      && multiset(e.handed[k]) == Scheduled(cfg.sizes, e.accepted, k)
  {
    RunKeepsInv(cfg, evs);
  }

  /** Where level `i` stands, or behind the last level the map, when its hand is at slot `g`. */
  ghost predicate StandsAt(ws: Wheels, sizes: seq<nat>, i: nat, g: nat)
    requires ValidSizes(sizes) && i <= |sizes| == |ws.levels|
  {
    if i < |sizes| then ws.levels[i].currentPos == g % sizes[i] else ws.taskMapPos == g
  }

  lemma HandsStand(cfg: Config, e: Exec, i: nat)
    requires ValidConfig(cfg) && Inv(cfg, e) && i <= |cfg.sizes|
    ensures StandsAt(e.wheels, cfg.sizes, i, HandAfter(cfg.sizes, i, |e.handed|))
  {
    HandsAre(e.wheels, cfg.sizes, 0, |e.handed|);
    HandClosedForm(cfg.sizes, i, |e.handed|);
  }

  /** In every run, after `h` ticks, the hand of each level, and behind the last one the map
      position, stands where the closed form says. Above the first level it has been moved on
      `(h + S_1 + ... + S_(i-1)) / S_i` times, `S_j` being the unit of level `j`. */
  lemma HandsInClosedForm(cfg: Config, evs: seq<Event>, i: nat)
    requires ValidConfig(cfg) && Run(cfg, evs).Some? && i <= |cfg.sizes|
    ensures var e, s := Run(cfg, evs).value, cfg.sizes;
      var h := HandCount(e.tick, e.delivering);
      && h == |e.handed| && |e.wheels.levels| == |s|
      && StandsAt(e.wheels, s, i, HandAfter(s, i, h))
  {
    RunKeepsInv(cfg, evs);
    HandsStand(cfg, Run(cfg, evs).value, i);
  }

  /** The due tick is the intended tick exactly under `OnTime`. */
  lemma OnTimeExactly(sizes: seq<nat>, ins: Insertion)
    requires ValidSizes(sizes) && ins.tick <= ins.entry.tickCount
    ensures OnTime(sizes, ins) <==> DueTick(sizes, ins) == Some(ins.entry.tickCount)
  {
    var s0, c, t := sizes[0], ins.tick, ins.entry.tickCount;
    if t - c >= s0 && |sizes| == 1 {
      OneLevelDue(s0, c, t);
      StepQuotient(c, s0);
    }
  }

  /** With one wheel, a task that goes through the map comes out on time when the digits of the
      counter and of the distance add up without a carry, and one turn early otherwise. */
  lemma OneLevelDue(s0: nat, c: nat, t: nat)
    requires s0 > 0 && t >= c + s0
    ensures var key, d := (t - c) / s0 + c / s0, t - c;
      && key > c / s0
      && TickInTurn(key, t, s0) == (if c % s0 + d % s0 < s0 then t else t - s0)
      && (key <= (c + 1) / s0 <==> c % s0 + 1 == s0 && d / s0 == 1)
  {
    var d := t - c;
    var due := TickInTurn(d / s0 + c / s0, t, s0);
    AddDigits(d, c, s0);
    QuotientShift(t - s0, s0);
    SameDigits(due, if c % s0 + d % s0 < s0 then t else t - s0, s0);
    StepQuotient(c, s0);
    OneOrMore(d, s0);
  }

  lemma OneOrMore(d: nat, s0: nat)
    requires s0 > 0 && d >= s0
    ensures d / s0 >= 1
  {
    QuotientShift(d - s0, s0);
  }

  // ---- When a whole run is on time ----------------------------------------------------------

  /** The insertion was meant for, or comes out at, one of the `h` ticks already taken. */
  ghost predicate Settled(sizes: seq<nat>, ins: Insertion, h: nat)
    requires |sizes| > 0 && sizes[0] > 0 && ins.tick <= ins.entry.tickCount
  {
    || ins.entry.tickCount < h
    || (DueTick(sizes, ins).Some? && DueTick(sizes, ins).value < h)
  }

  lemma {:induction false} ScheduledIsMeant(sizes: seq<nat>, log: seq<Insertion>, h: nat, k: nat)
    requires ValidSizes(sizes) && LogInOrder(log) && k < h
    requires forall i :: 0 <= i < |log| && Settled(sizes, log[i], h) ==> OnTime(sizes, log[i])
    ensures Scheduled(sizes, log, k) == Meant(log, k)
  {
    if log != [] {
      ScheduledIsMeant(sizes, log[..|log| - 1], h, k);
      OnTimeExactly(sizes, log[|log| - 1]);
    }
  }

  lemma {:induction false} ScheduledBelowMeant(
    sizes: seq<nat>, log: seq<Insertion>, i: nat, x: TaskWithTimestamp)
    requires ValidSizes(sizes) && LogInOrder(log)
    ensures Scheduled(sizes, log, x.tickCount)[x] <= Meant(log, x.tickCount)[x]
    ensures i < |log| && log[i].entry == x && DueTick(sizes, log[i]) != Some(x.tickCount)
      ==> Scheduled(sizes, log, x.tickCount)[x] < Meant(log, x.tickCount)[x]
  {
    if log != [] {
      ScheduledBelowMeant(sizes, log[..|log| - 1], i, x);
    }
  }

  lemma {:induction false} ScheduledElsewhere(sizes: seq<nat>, log: seq<Insertion>, i: nat, k: nat)
    requires ValidSizes(sizes) && LogInOrder(log) && i < |log|
    ensures DueTick(sizes, log[i]) == Some(k) && log[i].entry.tickCount != k ==>
      Scheduled(sizes, log, k)[log[i].entry] > 0 && Meant(log, k)[log[i].entry] == 0
  {
    MeantOnlyForTick(log, k, log[i].entry);
    if i < |log| - 1 {
      ScheduledElsewhere(sizes, log[..|log| - 1], i, k);
    }
  }

  lemma {:induction false} MeantOnlyForTick(log: seq<Insertion>, k: nat, x: TaskWithTimestamp)
    ensures x.tickCount != k ==> Meant(log, k)[x] == 0
  {
    if log != [] {
      MeantOnlyForTick(log[..|log| - 1], k, x);
    }
  }

  /** A run hands out at every tick exactly what was meant for it if and only if every
      insertion that has come due, or should have, met `OnTime` when it was made. */
  lemma RunOnTimeExactly(cfg: Config, evs: seq<Event>)
    requires ValidConfig(cfg) && Run(cfg, evs).Some?
    ensures var e := Run(cfg, evs).value;
      LogInOrder(e.accepted)
      && ((forall k :: 0 <= k < |e.handed| ==> multiset(e.handed[k]) == Meant(e.accepted, k))
          <==> (forall i :: 0 <= i < |e.accepted| && Settled(cfg.sizes, e.accepted[i], |e.handed|)
                  ==> OnTime(cfg.sizes, e.accepted[i])))
  {
    RunKeepsInv(cfg, evs);
    var e, s := Run(cfg, evs).value, cfg.sizes;
    var h := |e.handed|;
    if forall i :: 0 <= i < |e.accepted| && Settled(s, e.accepted[i], h) ==> OnTime(s, e.accepted[i]) {
      forall k | 0 <= k < h
        ensures multiset(e.handed[k]) == Meant(e.accepted, k)
      {
        ScheduledIsMeant(s, e.accepted, h, k);
      }
    } else {
      var i :| 0 <= i < |e.accepted| && Settled(s, e.accepted[i], h) && !OnTime(s, e.accepted[i]);
      var x := e.accepted[i].entry;
      OnTimeExactly(s, e.accepted[i]);
      if x.tickCount < h {
        ScheduledBelowMeant(s, e.accepted, i, x);
        assert multiset(e.handed[x.tickCount]) != Meant(e.accepted, x.tickCount);
      } else {
        var k := DueTick(s, e.accepted[i]).value;
        ScheduledElsewhere(s, e.accepted, i, k);
        assert multiset(e.handed[k]) != Meant(e.accepted, k);
      }
    }
  }

  // ---- Nothing is invented, and what is lost -----------------------------------------------

  lemma {:induction false} TickConserves(ws: Wheels, i: nat, x: TaskWithTimestamp)
    requires WellFormed(ws) && i < |ws.levels| && Tick(ws, i).Ticked?
    ensures var r := Tick(ws, i);
      StoredCount(ws, x) == StoredCount(r.wheels, x) + multiset(r.out)[x] + multiset(r.lost)[x]
    decreases |ws.levels| - i
  {
    var w := ws.levels[i];
    var ws' := ws.(levels := ws.levels[i := Advance(w)]);
    WheelCountUpdate(w.wheel, w.currentPos, [], x);
    LevelsCountUpdate(ws.levels, i, Advance(w), x);
    if w.currentPos + 1 == |w.wheel| {
      if i + 1 < |ws.levels| {
        TickConserves(ws', i + 1, x);
      } else if ws.taskMapPos in ws.taskMap {
        var list := ws.taskMap[ws.taskMapPos];
        var w' := ws'.levels[i];
        DistributeTotal(w'.wheel, list, w.scale, 1, x);
        LevelsCountUpdate(ws'.levels, i, w'.(wheel := Distribute(w'.wheel, list, w.scale, 1)), x);
        MapCountWithout(ws.taskMap, ws.taskMapPos, x);
      }
    }
  }

  lemma {:induction false} PlaceConserves(
    ws: Wheels, i: nat, diff: nat, cur: nat, e: TaskWithTimestamp, x: TaskWithTimestamp)
    requires WellFormed(ws) && i <= |ws.levels|
    ensures StoredCount(Place(ws, i, diff, cur, e), x) == StoredCount(ws, x) + (if e == x then 1 else 0)
    decreases |ws.levels| - i
  {
    if i == |ws.levels| {
      MapCountAdd(ws.taskMap, diff + cur, e, x);
    } else {
      var w := ws.levels[i];
      var size := |w.wheel|;
      if diff < size {
        var pos := (diff + cur) % size;
        var list := w.wheel[pos] + [e];
        WheelCountUpdate(w.wheel, pos, list, x);
        LevelsCountUpdate(ws.levels, i, w.(wheel := w.wheel[pos := list]), x);
      } else {
        PlaceConserves(ws, i + 1, diff / size, cur / size, e, x);
      }
    }
  }

  ghost function AcceptedCount(log: seq<Insertion>, x: TaskWithTimestamp): nat {
    if log == [] then 0
    else AcceptedCount(log[..|log| - 1], x) + (if log[|log| - 1].entry == x then 1 else 0)
  }

  ghost function HandedCount(handed: seq<TaskList>, x: TaskWithTimestamp): nat {
    if handed == [] then 0
    else HandedCount(handed[..|handed| - 1], x) + multiset(handed[|handed| - 1])[x]
  }

  lemma {:induction false} InitialStoresNothing(sizes: seq<nat>, x: TaskWithTimestamp)
    ensures StoredCount(InitialWheels(sizes), x) == 0
  {
    LevelsOfEmptyWheels(InitialWheels(sizes).levels, x);
  }

  lemma {:induction false} LevelsOfEmptyWheels(levels: seq<Level>, x: TaskWithTimestamp)
    requires forall i :: 0 <= i < |levels| ==> levels[i].wheel == seq(|levels[i].wheel|, _ => [])
    ensures LevelsCount(levels, x) == 0
  {
    if levels != [] {
      EmptyWheelCount(|levels[0].wheel|, x);
      LevelsOfEmptyWheels(levels[1..], x);
    }
  }

  ghost predicate Accounted(e: Exec, x: TaskWithTimestamp) {
    AcceptedCount(e.accepted, x)
      == HandedCount(e.handed, x) + StoredCount(e.wheels, x) + multiset(e.lost)[x]
  }

  lemma AcceptAccounts(e: Exec, entry: TaskWithTimestamp, x: TaskWithTimestamp)
    requires WellFormed(e.wheels) && Accounted(e, x) && entry.tickCount >= e.tick
    ensures Accounted(Accept(e, entry), x)
  {
    var e' := Accept(e, entry);
    assert e'.accepted[..|e'.accepted| - 1] == e.accepted;
    PlaceConserves(e.wheels, 0, entry.tickCount - e.tick, e.tick, entry, x);
  }

  lemma TickAccounts(cfg: Config, e: Exec, x: TaskWithTimestamp)
    requires cfg.dt > 0 && WellFormed(e.wheels) && |e.wheels.levels| > 0 && Accounted(e, x)
    requires !e.delivering && Tick(e.wheels, 0).Ticked?
    ensures Accounted(Step(cfg, e, TimerTick).value, x)
  {
    var out := Tick(e.wheels, 0).out;
    assert (e.handed + [out])[..|e.handed|] == e.handed;
    TickConserves(e.wheels, 0, x);
  }

  lemma StepAccounts(cfg: Config, e: Exec, ev: Event, x: TaskWithTimestamp)
    requires cfg.dt > 0 && WellFormed(e.wheels) && |e.wheels.levels| > 0 && Accounted(e, x)
    requires Step(cfg, e, ev).Some?
    ensures Accounted(Step(cfg, e, ev).value, x)
  {
    match ev
    case ExecuteAt(tp, task) =>
      var v := VirtualTime(cfg.start, tp);
      if v >= e.tick * cfg.dt {
        VirtualTimeTick(v, cfg.dt, e.tick);
        AcceptAccounts(e, TaskWithTimestamp(v / cfg.dt, task), x);
      }
    case TimerTick => if !e.delivering { TickAccounts(cfg, e, x); }
    case TasksFinished =>
  }

  /** In every run, every copy of every accepted task has been handed out, is stored, or was
      destroyed by a carry, and is only one of these. */
  lemma {:induction false} EveryTaskAccountedFor(cfg: Config, evs: seq<Event>, x: TaskWithTimestamp)
    requires ValidConfig(cfg) && Run(cfg, evs).Some?
    ensures var e := Run(cfg, evs).value;
      AcceptedCount(e.accepted, x)
        == HandedCount(e.handed, x) + StoredCount(e.wheels, x) + multiset(e.lost)[x]
  {
    if evs == [] {
      InitialStoresNothing(cfg.sizes, x);
    } else {
      var before := evs[..|evs| - 1];
      EveryTaskAccountedFor(cfg, before, x);
      StepAccounts(cfg, Run(cfg, before).value, evs[|evs| - 1], x);
    }
  }

  // ---- When the cascade leaves its wheels ---------------------------------------------------

  ghost predicate AboutToCarry(ws: Wheels, i: nat) {
    forall j :: i <= j < |ws.levels| ==> ws.levels[j].currentPos + 1 == |ws.levels[j].wheel|
  }

  /** A tick indexes outside a wheel exactly when it carries through every level and the map
      yields a task whose `tick_count % scale` is not a position of the last wheel. */
  lemma {:induction false} OutOfRangeExactly(ws: Wheels, i: nat)
    requires WellFormed(ws) && i < |ws.levels|
    ensures var last := ws.levels[|ws.levels| - 1];
      Tick(ws, i).OutOfRange? <==>
        && AboutToCarry(ws, i)
        && exists x :: x in AtKey(ws.taskMap, ws.taskMapPos) && x.tickCount % last.scale >= |last.wheel|
    decreases |ws.levels| - i
  {
    var w := ws.levels[i];
    var ws' := ws.(levels := ws.levels[i := Advance(w)]);
    if w.currentPos + 1 == |w.wheel| {
      if i + 1 < |ws.levels| {
        OutOfRangeExactly(ws', i + 1);
        assert forall j :: i < j < |ws.levels| ==> ws'.levels[j] == ws.levels[j];
      } else {
        forall t: nat
          ensures SlotIndex(t, w.scale, 1) == t % w.scale
        {
        }
      }
    }
  }

  /** With a single wheel no run leaves it, and nothing is ever destroyed. */
  lemma {:induction false} OneWheelStaysInRange(cfg: Config, evs: seq<Event>)
    requires ValidConfig(cfg) && |cfg.sizes| == 1
    ensures Run(cfg, evs).Some? && Run(cfg, evs).value.lost == []
  {
    if evs != [] {
      var before := evs[..|evs| - 1];
      OneWheelStaysInRange(cfg, before);
      RunKeepsInv(cfg, before);
      OneWheelTick(Run(cfg, before).value.wheels, cfg.sizes);
    }
  }

  lemma OneWheelTick(ws: Wheels, sizes: seq<nat>)
    requires |sizes| == 1 && Shaped(ws, sizes) && WellFormed(ws)
    ensures Tick(ws, 0).Ticked? && Tick(ws, 0).lost == []
  {
    OutOfRangeExactly(ws, 0);
    assert Unit(sizes, 1) == Unit(sizes, 0) * sizes[0] == sizes[0];
  }
}
