/** The timing wheel with four repairs, and the proof that it then is what it is meant to be.

    This module is not the shipped code: it is a change to it under which a cascade of
    any sizes agrees with a plain map from ticks to tasks.
      R1  what the next level hands back is redistributed, not only what the map hands back;
      R2  a task goes to slot `(tick_count % scale) / (scale / size)`, which is always in range;
      R3  placement compares the block of the task with the hand of each level;
      R4  the counter is incremented before the lock is released. */
module RepairedTimeWheel {
  import opened Basics
  import opened WheelArithmetic
  import opened TimingWheel
  import opened TimeWheelSpec

  ghost predicate Sound(ws: Wheels, sizes: seq<nat>) {
    ValidSizes(sizes) && Shaped(ws, sizes) && WellFormed(ws)
  }

  // ---- The repaired steps ---------------------------------------------------------------

  /** R2: the index formula is the block of the task, read on the wheel. */
  lemma SlotIndexIsBlock(sizes: seq<nat>, i: nat, t: nat)
    requires i < |sizes| && Positive(sizes)
    ensures var scale, size := Unit(sizes, i + 1), sizes[i];
      scale > 0 && scale / size == Unit(sizes, i) > 0
      && SlotIndex(t, scale, scale / size) == Block(sizes, i, t) % size < size
  {
    UnitPositive(sizes, i);
    UnitPositive(sizes, i + 1);
    QuotientIs(Unit(sizes, i + 1), sizes[i], Unit(sizes, i));
    DigitOf(t, Unit(sizes, i), sizes[i]);
    BlockIsQuotient(sizes, i, t);
  }

  /** `list` spliced into level `i`. */
  function Redistribute(ws: Wheels, sizes: seq<nat>, i: nat, list: TaskList): (r: Wheels)
    requires Sound(ws, sizes) && i < |sizes|
    ensures Sound(r, sizes)
  {
    var w := ws.levels[i];
    assert w.scale / |w.wheel| > 0 && Fits(list, w.scale, w.scale / |w.wheel|, |w.wheel|) by {
      SlotIndexIsBlock(sizes, i, 0);
      forall x | x in list
        ensures SlotIndex(x.tickCount, w.scale, w.scale / |w.wheel|) < |w.wheel|
      {
        SlotIndexIsBlock(sizes, i, x.tickCount);
      }
    }
    ws.(levels := ws.levels[i := w.(wheel := Distribute(w.wheel, list, w.scale, w.scale / |w.wheel|))])
  }

  function TakeKey(ws: Wheels): (Wheels, TaskList) {
    (Wheels(ws.levels, ws.taskMap - {ws.taskMapPos}, ws.taskMapPos + 1), AtKey(ws.taskMap, ws.taskMapPos))
  }

  /** `borrow_func` of level `i`, with R1. */
  function Borrow(ws: Wheels, sizes: seq<nat>, i: nat): (r: Wheels)
    requires Sound(ws, sizes) && i < |sizes|
    ensures Sound(r, sizes)
    ensures forall j :: 0 <= j < i ==> r.levels[j] == ws.levels[j]
    decreases |sizes| - i, 0
  {
    var (ws', list) := Tick(ws, sizes, i + 1);
    Redistribute(ws', sizes, i, list)
  }

  /** One tick of level `i`. Level `|sizes|` is the map. */
  function Tick(ws: Wheels, sizes: seq<nat>, i: nat): (r: (Wheels, TaskList))
    requires Sound(ws, sizes) && i <= |sizes|
    ensures Sound(r.0, sizes)
    ensures forall j :: 0 <= j < i && j < |sizes| ==> r.0.levels[j] == ws.levels[j]
    decreases |sizes| - i, 1
  {
    if i == |sizes| then TakeKey(ws)
    else
      var w := ws.levels[i];
      var out := w.wheel[w.currentPos];
      (if w.currentPos + 1 != |w.wheel| then Taken(ws, i) else Borrow(Taken(ws, i), sizes, i), out)
  }

  /** Placement with R3: `block` is the block of the task at level `i`, `hand` the level's hand. */
  function Place(ws: Wheels, sizes: seq<nat>, i: nat, block: nat, hand: nat, x: TaskWithTimestamp): (r: Wheels)
    requires Sound(ws, sizes) && i <= |sizes|
    ensures Sound(r, sizes)
    decreases |sizes| - i
  {
    if i == |sizes| then AddToMap(ws, block, x)
    else if block < hand + sizes[i] then AddToSlot(ws, i, block % sizes[i], x)
    else Place(ws, sizes, i + 1, block / sizes[i], 1 + hand / sizes[i], x)
  }

  function Step(cfg: Config, e: Exec, ev: Event): (r: Exec)
    requires ValidConfig(cfg) && Sound(e.wheels, cfg.sizes)
    ensures Sound(r.wheels, cfg.sizes)
  {
    match ev
    case ExecuteAt(tp, task) =>
      var v := VirtualTime(cfg.start, tp);
      if v < e.tick * cfg.dt then e
      else
        var x := TaskWithTimestamp(v / cfg.dt, task);
        e.(wheels := Place(e.wheels, cfg.sizes, 0, v / cfg.dt, e.tick, x))
    case TimerTick =>
      var (ws, out) := Tick(e.wheels, cfg.sizes, 0);
      e.(wheels := ws, handed := e.handed + [out], tick := e.tick + 1)
    case TasksFinished => e
  }

  ghost function Run(cfg: Config, evs: seq<Event>): (r: Exec)
    requires ValidConfig(cfg)
    ensures Sound(r.wheels, cfg.sizes)
  {
    if evs == [] then
      InitialWellFormed(cfg.sizes);
      Initial(cfg)
    else Step(cfg, Run(cfg, evs[..|evs| - 1]), evs[|evs| - 1])
  }

  // ---- The plain map ----------------------------------------------------------------------

  datatype Plan = Plan(tick: nat, pending: map<nat, multiset<TaskWithTimestamp>>,
                       handed: seq<multiset<TaskWithTimestamp>>)

  function PlannedFor(p: Plan, k: nat): multiset<TaskWithTimestamp> {
    if k in p.pending then p.pending[k] else multiset{}
  }

  function PlanStep(cfg: Config, p: Plan, ev: Event): Plan
    requires cfg.dt > 0
  {
    match ev
    case ExecuteAt(tp, task) =>
      var v := VirtualTime(cfg.start, tp);
      if v < p.tick * cfg.dt then p
      else
        var k := v / cfg.dt;
        p.(pending := p.pending[k := PlannedFor(p, k) + multiset{TaskWithTimestamp(k, task)}])
    case TimerTick =>
      Plan(p.tick + 1, p.pending - {p.tick}, p.handed + [PlannedFor(p, p.tick)])
    case TasksFinished => p
  }

  function PlanRun(cfg: Config, evs: seq<Event>): Plan
    requires cfg.dt > 0
  {
    if evs == [] then Plan(0, map[], [])
    else PlanStep(cfg, PlanRun(cfg, evs[..|evs| - 1]), evs[|evs| - 1])
  }

  // ---- What is stored where ---------------------------------------------------------------

  /** Every task of `list` belongs to block `b` of level `i`. */
  ghost predicate InBlock(sizes: seq<nat>, i: nat, list: TaskList, b: nat)
    requires i <= |sizes| && Positive(sizes)
  {
    forall x :: x in list ==> Block(sizes, i, x.tickCount) == b
  }

  /** Slot `j` holds only tasks whose block is the one it now stands for, in the live
      window `g <= block < g + size`. */
  ghost predicate LiveLevel(wheel: seq<TaskList>, sizes: seq<nat>, i: nat, g: nat)
    requires i < |sizes| && Positive(sizes)
  {
    forall j, x :: 0 <= j < |wheel| && x in wheel[j] ==>
      var b := Block(sizes, i, x.tickCount); g <= b < g + sizes[i] && b % sizes[i] == j
  }

  ghost predicate LiveFrom(ws: Wheels, sizes: seq<nat>, i: nat, g: nat)
    requires Sound(ws, sizes) && i <= |sizes|
    decreases |sizes| - i
  {
    if i == |sizes| then forall k :: k in ws.taskMap ==> k >= g && InBlock(sizes, i, ws.taskMap[k], k)
    else LiveLevel(ws.levels[i].wheel, sizes, i, g) && LiveFrom(ws, sizes, i + 1, NextHand(g, sizes[i]))
  }

  /** How many copies of `x` are held, looked up level by level in the one place each may be. */
  ghost function HeldFrom(ws: Wheels, sizes: seq<nat>, i: nat, g: nat, x: TaskWithTimestamp): nat
    requires Sound(ws, sizes) && i <= |sizes|
    decreases |sizes| - i
  {
    if i == |sizes| then multiset(AtKey(ws.taskMap, Block(sizes, i, x.tickCount)))[x]
    else
      HeldAt(ws.levels[i].wheel, sizes, i, g, x) + HeldFrom(ws, sizes, i + 1, NextHand(g, sizes[i]), x)
  }

  ghost function HeldAt(wheel: seq<TaskList>, sizes: seq<nat>, i: nat, g: nat, x: TaskWithTimestamp): nat
    requires i < |sizes| && Positive(sizes) && |wheel| == sizes[i]
  {
    var b := Block(sizes, i, x.tickCount);
    if g <= b < g + sizes[i] then multiset(wheel[b % sizes[i]])[x] else 0
  }

  // ---- Framing ----------------------------------------------------------------------------

  ghost predicate SameFrom(ws: Wheels, ws': Wheels, sizes: seq<nat>, i: nat)
    requires |ws.levels| == |ws'.levels| == |sizes|
  {
    && ws.taskMap == ws'.taskMap && ws.taskMapPos == ws'.taskMapPos
    && forall j :: i <= j < |sizes| ==> ws.levels[j] == ws'.levels[j]
  }

  lemma {:induction false} FromFrame(ws: Wheels, ws': Wheels, sizes: seq<nat>, i: nat, g: nat)
    requires Sound(ws, sizes) && Sound(ws', sizes) && i <= |sizes| && SameFrom(ws, ws', sizes, i)
    ensures HandsFrom(ws, sizes, i, g) <==> HandsFrom(ws', sizes, i, g)
    ensures LiveFrom(ws, sizes, i, g) <==> LiveFrom(ws', sizes, i, g)
    ensures forall x :: HeldFrom(ws, sizes, i, g, x) == HeldFrom(ws', sizes, i, g, x)
    decreases |sizes| - i
  {
    if i < |sizes| {
      FromFrame(ws, ws', sizes, i + 1, NextHand(g, sizes[i]));
    }
  }

  // ---- One tick -----------------------------------------------------------------------------

  /** Taking the slot under the hand takes exactly the block of the hand, and the window moves on. */
  lemma AdvanceLive(w: Level, sizes: seq<nat>, i: nat, g: nat)
    requires i < |sizes| && Positive(sizes) && |w.wheel| == sizes[i]
    requires w.currentPos == g % sizes[i] && LiveLevel(w.wheel, sizes, i, g)
    ensures LiveLevel(Advance(w).wheel, sizes, i, g + 1)
    ensures InBlock(sizes, i, w.wheel[w.currentPos], g)
    ensures forall x ::
      HeldAt(w.wheel, sizes, i, g, x)
        == multiset(w.wheel[w.currentPos])[x] + HeldAt(Advance(w).wheel, sizes, i, g + 1, x)
  {
    var s := sizes[i];
    QuotientShift(g, s);
    forall b: nat | g <= b < g + s && b % s == g % s
      ensures b == g
    {
      SameRemainder(b, g, s);
    }
    forall x
      ensures HeldAt(w.wheel, sizes, i, g, x)
        == multiset(w.wheel[w.currentPos])[x] + HeldAt(Advance(w).wheel, sizes, i, g + 1, x)
    {
      var b := Block(sizes, i, x.tickCount);
      if b != g {
        assert x !in w.wheel[w.currentPos];
      }
    }
  }

  /** A list that the next level hands back fills the window this level is about to enter. */
  lemma RedistributeLive(wheel: seq<TaskList>, sizes: seq<nat>, i: nat, g: nat, list: TaskList)
    requires i < |sizes| && Positive(sizes) && |wheel| == sizes[i] && g % sizes[i] == 0
    requires LiveLevel(wheel, sizes, i, g) && InBlock(sizes, i + 1, list, g / sizes[i])
    requires Unit(sizes, i + 1) > 0 && Unit(sizes, i) > 0
    requires Fits(list, Unit(sizes, i + 1), Unit(sizes, i), |wheel|)
    ensures var wheel' := Distribute(wheel, list, Unit(sizes, i + 1), Unit(sizes, i));
      && LiveLevel(wheel', sizes, i, g)
      && forall x :: HeldAt(wheel', sizes, i, g, x) == HeldAt(wheel, sizes, i, g, x) + multiset(list)[x]
  {
    var wheel' := Distribute(wheel, list, Unit(sizes, i + 1), Unit(sizes, i));
    forall j: nat, x | j < sizes[i]
      ensures multiset(wheel'[j])[x] == multiset(wheel[j])[x] + Arriving(sizes, i, list, j, x)
    {
      DistributeCounts(wheel, list, Unit(sizes, i + 1), Unit(sizes, i), j, x);
      SlotIndexIsBlock(sizes, i, x.tickCount);
    }
    forall x | x in list
      ensures g <= Block(sizes, i, x.tickCount) < g + sizes[i]
    {
      assert Block(sizes, i + 1, x.tickCount) == Block(sizes, i, x.tickCount) / sizes[i];
      BlockIsWindow(Block(sizes, i, x.tickCount), g, sizes[i]);
    }
    FilledLive(wheel, wheel', sizes, i, g, list);
  }

  ghost function Arriving(sizes: seq<nat>, i: nat, list: TaskList, j: nat, x: TaskWithTimestamp): nat
    requires i < |sizes| && Positive(sizes)
  {
    if Block(sizes, i, x.tickCount) % sizes[i] == j then multiset(list)[x] else 0
  }

  lemma FilledLive(
    wheel: seq<TaskList>, wheel': seq<TaskList>, sizes: seq<nat>, i: nat, g: nat, list: TaskList)
    requires i < |sizes| && Positive(sizes) && |wheel| == |wheel'| == sizes[i]
    requires LiveLevel(wheel, sizes, i, g)
    requires forall j: nat, x :: j < sizes[i] ==>
      multiset(wheel'[j])[x] == multiset(wheel[j])[x] + Arriving(sizes, i, list, j, x)
    requires forall x :: x in list ==> g <= Block(sizes, i, x.tickCount) < g + sizes[i]
    ensures LiveLevel(wheel', sizes, i, g)
    ensures forall x :: HeldAt(wheel', sizes, i, g, x) == HeldAt(wheel, sizes, i, g, x) + multiset(list)[x]
  {
    forall j: nat, x: TaskWithTimestamp | j < |wheel'| && x in wheel'[j]
      ensures var b := Block(sizes, i, x.tickCount); g <= b < g + sizes[i] && b % sizes[i] == j
    {
      assert multiset(wheel'[j])[x] > 0;
      assert x in wheel[j] || Arriving(sizes, i, list, j, x) > 0;
    }
    forall x
      ensures HeldAt(wheel', sizes, i, g, x) == HeldAt(wheel, sizes, i, g, x) + multiset(list)[x]
    {
      var b := Block(sizes, i, x.tickCount);
      if g <= b < g + sizes[i] {
        assert Arriving(sizes, i, list, b % sizes[i], x) == multiset(list)[x];
      } else {
        assert x !in list;
      }
    }
  }

  /** The cascade preserves meaning. A tick of level `i` hands back exactly the tasks of the
      block under its hand; through any number of carries every task keeps its due tick, none
      is lost or duplicated, and each is in the live window of the level it is moved to. */
  lemma {:induction false} TickLive(ws: Wheels, sizes: seq<nat>, i: nat, g: nat)
    requires Sound(ws, sizes) && i <= |sizes|
    requires HandsFrom(ws, sizes, i, g) && LiveFrom(ws, sizes, i, g)
    ensures var (ws', out) := Tick(ws, sizes, i);
      && HandsFrom(ws', sizes, i, g + 1) && LiveFrom(ws', sizes, i, g + 1)
      && InBlock(sizes, i, out, g)
      && forall x :: HeldFrom(ws, sizes, i, g, x) == multiset(out)[x] + HeldFrom(ws', sizes, i, g + 1, x)
    decreases |sizes| - i, 1, 0
  {
    if i < |sizes| {
      if ws.levels[i].currentPos + 1 == |ws.levels[i].wheel| {
        TickWithCarry(ws, sizes, i, g);
      } else {
        TickWithoutCarry(ws, sizes, i, g);
      }
    }
  }

  lemma TickWithoutCarry(ws: Wheels, sizes: seq<nat>, i: nat, g: nat)
    requires Sound(ws, sizes) && i < |sizes| && ws.levels[i].currentPos + 1 != |ws.levels[i].wheel|
    requires HandsFrom(ws, sizes, i, g) && LiveFrom(ws, sizes, i, g)
    ensures var (ws', out) := Tick(ws, sizes, i);
      && HandsFrom(ws', sizes, i, g + 1) && LiveFrom(ws', sizes, i, g + 1)
      && InBlock(sizes, i, out, g)
      && forall x :: HeldFrom(ws, sizes, i, g, x) == multiset(out)[x] + HeldFrom(ws', sizes, i, g + 1, x)
  {
    var up := NextHand(g, sizes[i]);
    TakenLive(ws, sizes, i, g, up);
    StepQuotient(g, sizes[i]);
    StayLive(Taken(ws, i), sizes, i, g + 1, up);
  }

  lemma TickWithCarry(ws: Wheels, sizes: seq<nat>, i: nat, g: nat)
    requires Sound(ws, sizes) && i < |sizes| && ws.levels[i].currentPos + 1 == |ws.levels[i].wheel|
    requires HandsFrom(ws, sizes, i, g) && LiveFrom(ws, sizes, i, g)
    ensures var (ws', out) := Tick(ws, sizes, i);
      && HandsFrom(ws', sizes, i, g + 1) && LiveFrom(ws', sizes, i, g + 1)
      && InBlock(sizes, i, out, g)
      && forall x :: HeldFrom(ws, sizes, i, g, x) == multiset(out)[x] + HeldFrom(ws', sizes, i, g + 1, x)
    decreases |sizes| - i, 0, 1
  {
    var up := NextHand(g, sizes[i]);
    TakenLive(ws, sizes, i, g, up);
    StepQuotient(g, sizes[i]);
    CarryLive(Taken(ws, i), sizes, i, g + 1, up);
  }

  /** The wheels after the slot under the hand of level `i` was taken, before any carry. */
  function Taken(ws: Wheels, i: nat): Wheels
    requires WellFormed(ws) && i < |ws.levels|
  {
    ws.(levels := ws.levels[i := Advance(ws.levels[i])])
  }

  lemma TakenLive(ws: Wheels, sizes: seq<nat>, i: nat, g: nat, up: nat)
    requires Sound(ws, sizes) && i < |sizes| && up == NextHand(g, sizes[i])
    requires HandsFrom(ws, sizes, i, g) && LiveFrom(ws, sizes, i, g)
    ensures var w, ws' := ws.levels[i], Taken(ws, i);
      && Sound(ws', sizes)
      && HandsFrom(ws', sizes, i + 1, up) && LiveFrom(ws', sizes, i + 1, up)
      && LiveLevel(ws'.levels[i].wheel, sizes, i, g + 1)
      && InBlock(sizes, i, w.wheel[w.currentPos], g)
      && forall x :: HeldFrom(ws, sizes, i, g, x) == multiset(w.wheel[w.currentPos])[x]
           + HeldAt(ws'.levels[i].wheel, sizes, i, g + 1, x) + HeldFrom(ws', sizes, i + 1, up, x)
  {
    AdvanceLive(ws.levels[i], sizes, i, g);
    FromFrame(ws, Taken(ws, i), sizes, i + 1, up);
  }

  lemma StayLive(ws: Wheels, sizes: seq<nat>, i: nat, g: nat, up: nat)
    requires Sound(ws, sizes) && i < |sizes| && up == NextHand(g, sizes[i])
    requires ws.levels[i].currentPos == g % sizes[i] && LiveLevel(ws.levels[i].wheel, sizes, i, g)
    requires HandsFrom(ws, sizes, i + 1, up) && LiveFrom(ws, sizes, i + 1, up)
    ensures HandsFrom(ws, sizes, i, g) && LiveFrom(ws, sizes, i, g)
    ensures forall x ::
      HeldFrom(ws, sizes, i, g, x) == HeldAt(ws.levels[i].wheel, sizes, i, g, x) + HeldFrom(ws, sizes, i + 1, up, x)
  {
  }

  lemma CarryLive(ws: Wheels, sizes: seq<nat>, i: nat, g: nat, up: nat)
    requires Sound(ws, sizes) && i < |sizes| && g % sizes[i] == 0 && up == g / sizes[i]
    requires ws.levels[i].currentPos == 0 && LiveLevel(ws.levels[i].wheel, sizes, i, g)
    requires HandsFrom(ws, sizes, i + 1, up) && LiveFrom(ws, sizes, i + 1, up)
    ensures var ws' := Borrow(ws, sizes, i);
      && HandsFrom(ws', sizes, i, g) && LiveFrom(ws', sizes, i, g)
      && forall x :: HeldFrom(ws', sizes, i, g, x)
           == HeldAt(ws.levels[i].wheel, sizes, i, g, x) + HeldFrom(ws, sizes, i + 1, up, x)
    decreases |sizes| - i, 0, 0
  {
    TickLive(ws, sizes, i + 1, up);
    var (ws', list) := Tick(ws, sizes, i + 1);
    var ws'' := Borrow(ws, sizes, i);
    SlotIndexIsBlock(sizes, i, 0);
    assert Fits(list, Unit(sizes, i + 1), Unit(sizes, i), sizes[i]) by {
      forall x | x in list
        ensures SlotIndex(x.tickCount, Unit(sizes, i + 1), Unit(sizes, i)) < sizes[i]
      {
        SlotIndexIsBlock(sizes, i, x.tickCount);
      }
    }
    RedistributeLive(ws'.levels[i].wheel, sizes, i, g, list);
    FromFrame(ws', ws'', sizes, i + 1, up + 1);
  }

  // ---- One insertion --------------------------------------------------------------------------

  /** Placement never lands behind a hand: from any level whose hand the task's block has not
      passed, it ends in the live window of some level or at a key still to come, and it adds
      one copy of the task to what is held. */
  lemma {:induction false} PlaceLive(ws: Wheels, sizes: seq<nat>, i: nat, g: nat, x: TaskWithTimestamp)
    requires Sound(ws, sizes) && i <= |sizes| && Block(sizes, i, x.tickCount) >= g
    requires HandsFrom(ws, sizes, i, g) && LiveFrom(ws, sizes, i, g)
    ensures var b := Block(sizes, i, x.tickCount);
      var ws' := Place(ws, sizes, i, b, g, x);
      && HandsFrom(ws', sizes, i, g) && LiveFrom(ws', sizes, i, g)
      && (forall j :: 0 <= j < i ==> ws'.levels[j] == ws.levels[j])
      && forall y :: HeldFrom(ws', sizes, i, g, y)
           == HeldFrom(ws, sizes, i, g, y) + (if y == x then 1 else 0)
    decreases |sizes| - i
  {
    var b := Block(sizes, i, x.tickCount);
    if i < |sizes| {
      var s := sizes[i];
      if b < g + s {
        AddLive(ws, sizes, i, g, x);
      } else {
        WindowOverflow(b, g, s);
        PlaceLive(ws, sizes, i + 1, NextHand(g, s), x);
        assert Block(sizes, i + 1, x.tickCount) == b / s;
      }
    }
  }

  lemma AddLive(ws: Wheels, sizes: seq<nat>, i: nat, g: nat, x: TaskWithTimestamp)
    requires Sound(ws, sizes) && i < |sizes| && g <= Block(sizes, i, x.tickCount) < g + sizes[i]
    requires HandsFrom(ws, sizes, i, g) && LiveFrom(ws, sizes, i, g)
    ensures var ws' := AddToSlot(ws, i, Block(sizes, i, x.tickCount) % sizes[i], x);
      && Sound(ws', sizes) && HandsFrom(ws', sizes, i, g) && LiveFrom(ws', sizes, i, g)
      && forall y :: HeldFrom(ws', sizes, i, g, y)
           == HeldFrom(ws, sizes, i, g, y) + (if y == x then 1 else 0)
  {
    var pos := Block(sizes, i, x.tickCount) % sizes[i];
    var ws' := AddToSlot(ws, i, pos, x);
    FromFrame(ws, ws', sizes, i + 1, NextHand(g, sizes[i]));
    var wheel, wheel' := ws.levels[i].wheel, ws'.levels[i].wheel;
    assert forall j: nat, y :: j < sizes[i] && y in wheel'[j] ==> y in wheel[j] || (j == pos && y == x);
    forall y
      ensures HeldAt(wheel', sizes, i, g, y) == HeldAt(wheel, sizes, i, g, y) + (if y == x then 1 else 0)
    {
    }
  }

  /** What is already past is held nowhere. */
  lemma {:induction false} PastIsNotHeld(ws: Wheels, sizes: seq<nat>, i: nat, g: nat, x: TaskWithTimestamp)
    requires Sound(ws, sizes) && i <= |sizes| && LiveFrom(ws, sizes, i, g)
    requires Block(sizes, i, x.tickCount) < g
    ensures HeldFrom(ws, sizes, i, g, x) == 0
    decreases |sizes| - i
  {
    if i < |sizes| {
      QuotientMonotone(Block(sizes, i, x.tickCount), g, sizes[i]);
      assert Block(sizes, i + 1, x.tickCount) == Block(sizes, i, x.tickCount) / sizes[i];
      PastIsNotHeld(ws, sizes, i + 1, NextHand(g, sizes[i]), x);
    }
  }

  // ---- Refinement ---------------------------------------------------------------------------

  ghost predicate KeyedByTick(p: Plan) {
    forall k, x :: x in PlannedFor(p, k) ==> x.tickCount == k
  }

  /** The wheels hold, for every tick still to come, what the plain map holds for it. */
  ghost predicate Stores(ws: Wheels, sizes: seq<nat>, c: nat, p: Plan)
    requires Sound(ws, sizes)
  {
    && HandsFrom(ws, sizes, 0, c) && LiveFrom(ws, sizes, 0, c)
    && forall x: TaskWithTimestamp :: x.tickCount >= c ==>
         HeldFrom(ws, sizes, 0, c, x) == PlannedFor(p, x.tickCount)[x]
  }

  ghost predicate Agrees(cfg: Config, e: Exec, p: Plan)
    requires ValidConfig(cfg) && Sound(e.wheels, cfg.sizes)
  {
    && e.tick == p.tick && |e.handed| == |p.handed|
    && (forall k :: 0 <= k < |e.handed| ==> multiset(e.handed[k]) == p.handed[k])
    && KeyedByTick(p)
    && Stores(e.wheels, cfg.sizes, e.tick, p)
  }

  lemma {:induction false} InitialLive(sizes: seq<nat>, i: nat, g: nat)
    requires i <= |sizes| && Sound(InitialWheels(sizes), sizes)
    ensures LiveFrom(InitialWheels(sizes), sizes, i, g)
    ensures forall x :: HeldFrom(InitialWheels(sizes), sizes, i, g, x) == 0
    decreases |sizes| - i
  {
    if i < |sizes| {
      InitialLive(sizes, i + 1, NextHand(g, sizes[i]));
    }
  }

  lemma InsertAgrees(cfg: Config, e: Exec, p: Plan, tp: uint64, task: Task)
    requires ValidConfig(cfg) && Sound(e.wheels, cfg.sizes) && Agrees(cfg, e, p)
    ensures Agrees(cfg, Step(cfg, e, ExecuteAt(tp, task)), PlanStep(cfg, p, ExecuteAt(tp, task)))
  {
    var v := VirtualTime(cfg.start, tp);
    if v >= e.tick * cfg.dt {
      VirtualTimeTick(v, cfg.dt, e.tick);
      PlaceStores(e.wheels, cfg.sizes, e.tick, p, TaskWithTimestamp(v / cfg.dt, task));
    }
  }

  function PlanAdd(p: Plan, x: TaskWithTimestamp): Plan {
    p.(pending := p.pending[x.tickCount := PlannedFor(p, x.tickCount) + multiset{x}])
  }

  lemma PlanAddCounts(p: Plan, x: TaskWithTimestamp)
    requires KeyedByTick(p)
    ensures KeyedByTick(PlanAdd(p, x))
    ensures forall y: TaskWithTimestamp ::
      PlannedFor(PlanAdd(p, x), y.tickCount)[y]
        == PlannedFor(p, y.tickCount)[y] + (if y == x then 1 else 0)
  {
    forall k, y | y in PlannedFor(PlanAdd(p, x), k)
      ensures y.tickCount == k
    {
      assert y in PlannedFor(p, k) || (k == x.tickCount && y == x);
    }
  }

  lemma PlaceStores(ws: Wheels, sizes: seq<nat>, c: nat, p: Plan, x: TaskWithTimestamp)
    requires Sound(ws, sizes) && Stores(ws, sizes, c, p) && KeyedByTick(p) && x.tickCount >= c
    ensures Stores(Place(ws, sizes, 0, x.tickCount, c, x), sizes, c, PlanAdd(p, x))
    ensures KeyedByTick(PlanAdd(p, x))
  {
    assert Block(sizes, 0, x.tickCount) == x.tickCount;
    PlaceLive(ws, sizes, 0, c, x);
    PlanAddCounts(p, x);
  }

  lemma TickAgrees(cfg: Config, e: Exec, p: Plan)
    requires ValidConfig(cfg) && Sound(e.wheels, cfg.sizes) && Agrees(cfg, e, p)
    ensures Agrees(cfg, Step(cfg, e, TimerTick), PlanStep(cfg, p, TimerTick))
  {
    TickStores(e.wheels, cfg.sizes, e.tick, p, PlanStep(cfg, p, TimerTick));
  }

  lemma TickStores(ws: Wheels, sizes: seq<nat>, c: nat, p: Plan, q: Plan)
    requires Sound(ws, sizes) && Stores(ws, sizes, c, p) && KeyedByTick(p)
    requires q.pending == p.pending - {c}
    ensures multiset(Tick(ws, sizes, 0).1) == PlannedFor(p, c)
    ensures Stores(Tick(ws, sizes, 0).0, sizes, c + 1, q) && KeyedByTick(q)
  {
    TickLive(ws, sizes, 0, c);
    TickTakesPlanned(ws, sizes, c, p);
    TickKeepsPlanned(ws, sizes, c, p, q);
  }

  lemma TickTakesPlanned(ws: Wheels, sizes: seq<nat>, c: nat, p: Plan)
    requires Sound(ws, sizes) && Stores(ws, sizes, c, p) && KeyedByTick(p)
    ensures multiset(Tick(ws, sizes, 0).1) == PlannedFor(p, c)
  {
    TickLive(ws, sizes, 0, c);
    var (ws', out) := Tick(ws, sizes, 0);
    forall x
      ensures multiset(out)[x] == PlannedFor(p, c)[x]
    {
      assert Block(sizes, 0, x.tickCount) == x.tickCount;
      if x.tickCount == c {
        PastIsNotHeld(ws', sizes, 0, c + 1, x);
        assert HeldFrom(ws, sizes, 0, c, x) == PlannedFor(p, c)[x];
      } else {
        assert x !in out && x !in PlannedFor(p, c);
      }
    }
  }

  lemma TickKeepsPlanned(ws: Wheels, sizes: seq<nat>, c: nat, p: Plan, q: Plan)
    requires Sound(ws, sizes) && Stores(ws, sizes, c, p) && KeyedByTick(p)
    requires q.pending == p.pending - {c}
    ensures KeyedByTick(q)
    ensures forall x: TaskWithTimestamp :: x.tickCount >= c + 1 ==>
      HeldFrom(Tick(ws, sizes, 0).0, sizes, 0, c + 1, x) == PlannedFor(q, x.tickCount)[x]
  {
    TickLive(ws, sizes, 0, c);
    var (ws', out) := Tick(ws, sizes, 0);
    forall x: TaskWithTimestamp | x.tickCount >= c + 1
      ensures HeldFrom(ws', sizes, 0, c + 1, x) == PlannedFor(q, x.tickCount)[x]
    {
      assert Block(sizes, 0, x.tickCount) == x.tickCount;
      assert x !in out;
      assert HeldFrom(ws, sizes, 0, c, x) == PlannedFor(p, x.tickCount)[x];
    }
    forall k, x | x in PlannedFor(q, k)
      ensures x.tickCount == k
    {
      assert x in PlannedFor(p, k);
    }
  }

  /** For any sizes and any run, the repaired wheel hands out at every tick exactly what a plain
      map from ticks to multisets of tasks would: each accepted task at its own tick, once. */
  lemma {:induction false} RepairedRefinesPlan(cfg: Config, evs: seq<Event>)
    requires ValidConfig(cfg)
    ensures Agrees(cfg, Run(cfg, evs), PlanRun(cfg, evs))
  {
    if evs == [] {
      InitialWellFormed(cfg.sizes);
      InitialHands(cfg.sizes, 1);
      InitialLive(cfg.sizes, 0, 0);
    } else {
      var before := evs[..|evs| - 1];
      RepairedRefinesPlan(cfg, before);
      var e, p := Run(cfg, before), PlanRun(cfg, before);
      match evs[|evs| - 1]
      case ExecuteAt(tp, task) => InsertAgrees(cfg, e, p, tp, task);
      case TimerTick => TickAgrees(cfg, e, p);
      case TasksFinished =>
    }
  }

  // ---- In terms of the calls ------------------------------------------------------------------

  function TicksIn(evs: seq<Event>): nat {
    if evs == [] then 0
    else TicksIn(evs[..|evs| - 1]) + if evs[|evs| - 1] == TimerTick then 1 else 0
  }

  /** The tasks asked for, in calls that were not too late, for a time within tick `k`. A time before the
      start is taken as `2^64` later. */
  ghost function AskedFor(cfg: Config, evs: seq<Event>, k: nat): multiset<TaskWithTimestamp>
    requires cfg.dt > 0
  {
    if evs == [] then multiset{}
    else
      var before, last := evs[..|evs| - 1], evs[|evs| - 1];
      AskedFor(cfg, before, k)
        + if last.ExecuteAt? && WithinTick(cfg, last.tp, k) && k >= TicksIn(before)
          then multiset{TaskWithTimestamp(k, last.task)} else multiset{}
  }

  predicate WithinTick(cfg: Config, tp: uint64, k: nat) {
    var time := if tp >= cfg.start then tp else tp + TWO_TO_THE_64;
    cfg.start + k * cfg.dt <= time < cfg.start + (k + 1) * cfg.dt
  }

  lemma WithinTickExactly(cfg: Config, tp: uint64, k: nat)
    requires cfg.dt > 0
    ensures WithinTick(cfg, tp, k) <==> VirtualTime(cfg.start, tp) / cfg.dt == k
  {
    RemainderIs(tp - cfg.start, TWO_TO_THE_64, if tp >= cfg.start then 0 else -1);
    var v := VirtualTime(cfg.start, tp);
    assert v == (v / cfg.dt) * cfg.dt + v % cfg.dt;
    if WithinTick(cfg, tp, k) {
      QuotientIs(v, cfg.dt, k);
    }
  }

  /** A time lies before a tick exactly if the tick it lies in does. */
  lemma BeforeTick(v: nat, dt: nat, c: nat)
    requires dt > 0
    ensures v < c * dt <==> v / dt < c
  {
    QuotientAtLeast(v, dt, c);
  }

  lemma PlanStepAsked(cfg: Config, p: Plan, evs: seq<Event>, ev: Event, k: nat)
    requires cfg.dt > 0 && p.tick == TicksIn(evs)
    ensures PlannedFor(PlanStep(cfg, p, ev), k)
      == if ev == TimerTick && k == p.tick then multiset{}
         else PlannedFor(p, k) + if ev.ExecuteAt? && WithinTick(cfg, ev.tp, k) && k >= TicksIn(evs)
                                 then multiset{TaskWithTimestamp(k, ev.task)} else multiset{}
  {
    if ev.ExecuteAt? {
      WithinTickExactly(cfg, ev.tp, k);
      BeforeTick(VirtualTime(cfg.start, ev.tp), cfg.dt, p.tick);
    }
  }

  ghost predicate PlanIsAsked(cfg: Config, evs: seq<Event>, p: Plan)
    requires cfg.dt > 0
  {
    && p.tick == |p.handed| == TicksIn(evs)
    && (forall k :: 0 <= k < p.tick ==> p.handed[k] == AskedFor(cfg, evs, k))
    && (forall k :: k >= p.tick ==> PlannedFor(p, k) == AskedFor(cfg, evs, k))
  }

  lemma {:induction false} PlanHandsOutAsked(cfg: Config, evs: seq<Event>)
    requires cfg.dt > 0
    ensures PlanIsAsked(cfg, evs, PlanRun(cfg, evs))
  {
    if evs != [] {
      var before, ev := evs[..|evs| - 1], evs[|evs| - 1];
      PlanHandsOutAsked(cfg, before);
      forall k: nat | k >= TicksIn(before)
        ensures PlannedFor(PlanRun(cfg, evs), k)
          == if ev == TimerTick && k == TicksIn(before) then multiset{} else AskedFor(cfg, evs, k)
      {
        PlanStepAsked(cfg, PlanRun(cfg, before), before, ev, k);
      }
    }
  }

  /** For any sizes and any run, tick `k` of the repaired wheel hands out exactly the tasks that were asked
      for, in calls made no later than that tick, for a time within it. */
  lemma HandsOutWhatWasAsked(cfg: Config, evs: seq<Event>)
    requires ValidConfig(cfg)
    ensures var e := Run(cfg, evs);
      && e.tick == |e.handed| == TicksIn(evs)
      && forall k :: 0 <= k < |e.handed| ==> multiset(e.handed[k]) == AskedFor(cfg, evs, k)
  {
    RepairedRefinesPlan(cfg, evs);
    PlanHandsOutAsked(cfg, evs);
  }
}
