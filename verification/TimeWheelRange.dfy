/** Which insertions make the timing wheel, as it is written, index outside a wheel, and when: an
    exact account over all runs. */
module TimeWheelRange {
  import opened Basics
  import opened WheelArithmetic
  import opened TimingWheel
  import opened TimeWheelSpec
  import opened TimeWheelSchedule

  // ---- Which insertions go to the map ---------------------------------------------------------

  /** The distance, in blocks of every level, reaches past the level: the entry goes to the map. */
  ghost predicate ToMap(sizes: seq<nat>, ins: Insertion)
    requires ValidSizes(sizes) && ins.tick <= ins.entry.tickCount
  {
    forall l :: 0 <= l < |sizes| ==> Block(sizes, l, ins.entry.tickCount - ins.tick) >= sizes[l]
  }

  /** The sum the placement loop has computed when it gets to level `i`. */
  ghost function SumAt(sizes: seq<nat>, ins: Insertion, i: nat): nat
    requires ValidSizes(sizes) && ins.tick <= ins.entry.tickCount && i <= |sizes|
  {
    Block(sizes, i, ins.entry.tickCount - ins.tick) + Block(sizes, i, ins.tick)
  }

  ghost function Key(sizes: seq<nat>, ins: Insertion): nat
    requires ValidSizes(sizes) && ins.tick <= ins.entry.tickCount
  {
    SumAt(sizes, ins, |sizes|)
  }

  /** The index at which a carry would splice the entry into the last wheel is none of its slots. */
  ghost predicate Misfits(sizes: seq<nat>, ins: Insertion)
    requires ValidSizes(sizes) && ins.tick <= ins.entry.tickCount
  {
    UnitPositive(sizes, |sizes|);
    ToMap(sizes, ins) && ins.entry.tickCount % Unit(sizes, |sizes|) >= sizes[|sizes| - 1]
  }

  /** By tick count `h` the map position has passed the key of an entry that does not fit, and had
      not when the entry was inserted. */
  ghost predicate Overdue(sizes: seq<nat>, ins: Insertion, h: nat)
    requires ValidSizes(sizes) && ins.tick <= ins.entry.tickCount
  {
    && Misfits(sizes, ins)
    && Hand(sizes, |sizes|, HandCount(ins.tick, ins.delivering)) <= Key(sizes, ins) < Hand(sizes, |sizes|, h)
  }

  /** The first level from `j` on whose size the distance, in its blocks, does not reach. */
  ghost function LevelFrom(sizes: seq<nat>, d: nat, j: nat): (i: nat)
    requires ValidSizes(sizes) && j <= |sizes|
    ensures j <= i <= |sizes|
    decreases |sizes| - j
  {
    if j == |sizes| || Block(sizes, j, d) < sizes[j] then j else LevelFrom(sizes, d, j + 1)
  }

  lemma {:induction false} LevelFromReaches(sizes: seq<nat>, d: nat, j: nat)
    requires ValidSizes(sizes) && j <= |sizes|
    ensures var i := LevelFrom(sizes, d, j);
      && (forall l :: j <= l < i ==> Block(sizes, l, d) >= sizes[l])
      && (i < |sizes| ==> Block(sizes, i, d) < sizes[i])
    decreases |sizes| - j
  {
    if j < |sizes| && Block(sizes, j, d) >= sizes[j] {
      LevelFromReaches(sizes, d, j + 1);
    }
  }

  /** The level an entry is put on, `|sizes|` for the map. */
  ghost function LevelOf(sizes: seq<nat>, ins: Insertion): (i: nat)
    requires ValidSizes(sizes) && ins.tick <= ins.entry.tickCount
    ensures i <= |sizes|
  {
    LevelFrom(sizes, ins.entry.tickCount - ins.tick, 0)
  }

  lemma LevelOfMap(sizes: seq<nat>, ins: Insertion)
    requires ValidSizes(sizes) && ins.tick <= ins.entry.tickCount
    ensures LevelOf(sizes, ins) == |sizes| <==> ToMap(sizes, ins)
  {
    LevelFromReaches(sizes, ins.entry.tickCount - ins.tick, 0);
  }

  /** An insertion in closed form. */
  lemma PlacedOnLevel(ws: Wheels, sizes: seq<nat>, ins: Insertion)
    requires ValidSizes(sizes) && Shaped(ws, sizes) && WellFormed(ws) && ins.tick <= ins.entry.tickCount
    ensures var i := LevelOf(sizes, ins);
      Placed(ws, ins) == PutAt(ws, sizes, i, SumAt(sizes, ins, i), ins.entry)
  {
    PlacedFrom(ws, sizes, ins.entry.tickCount - ins.tick, ins.tick, ins.entry);
  }

  lemma PlacedFrom(ws: Wheels, sizes: seq<nat>, d: nat, c: nat, x: TaskWithTimestamp)
    requires ValidSizes(sizes) && Shaped(ws, sizes) && WellFormed(ws)
    ensures var i := LevelFrom(sizes, d, 0);
      Place(ws, 0, d, c, x) == PutAt(ws, sizes, i, Block(sizes, i, d) + Block(sizes, i, c), x)
  {
    LevelFromReaches(sizes, d, 0);
    PlacedExactly(ws, sizes, 0, LevelFrom(sizes, d, 0), d, c, x);
  }

  /** The map after an insertion. */
  lemma PlacedInMap(ws: Wheels, sizes: seq<nat>, ins: Insertion)
    requires ValidSizes(sizes) && Shaped(ws, sizes) && WellFormed(ws) && ins.tick <= ins.entry.tickCount
    ensures Placed(ws, ins).taskMap
      == if ToMap(sizes, ins) then AddToMap(ws, Key(sizes, ins), ins.entry).taskMap else ws.taskMap
  {
    LevelOfMap(sizes, ins);
    PlacedOnLevel(ws, sizes, ins);
  }

  // ---- The map position -------------------------------------------------------------------------

  /** A tick takes one key off the map if it carries through every level, and none otherwise. */
  lemma {:induction false} TickTakesKey(ws: Wheels, i: nat)
    requires WellFormed(ws) && i < |ws.levels| && Tick(ws, i).Ticked?
    ensures var ws', pos := Tick(ws, i).wheels, ws.taskMapPos;
      && ws'.taskMapPos == (if AboutToCarry(ws, i) then pos + 1 else pos)
      && ws'.taskMap == (if AboutToCarry(ws, i) then ws.taskMap - {pos} else ws.taskMap)
    decreases |ws.levels| - i
  {
    var w := ws.levels[i];
    var ws' := ws.(levels := ws.levels[i := Advance(w)]);
    if w.currentPos + 1 == |w.wheel| {
      if i + 1 < |ws.levels| {
        TickTakesKey(ws', i + 1);
        assert AboutToCarry(ws', i + 1) <==> AboutToCarry(ws, i);
      } else if ws.taskMapPos !in ws.taskMap {
        assert ws.taskMap - {ws.taskMapPos} == ws.taskMap;
      }
    }
  }

  /** The hands are about to carry through every level exactly if the next tick moves the map on. */
  lemma {:induction false} CarryMovesMap(ws: Wheels, s: seq<nat>, i: nat, g: nat)
    requires i <= |s| == |ws.levels| && Positive(s) && Shaped(ws, s) && HandsFrom(ws, s, i, g)
    ensures HandAbove(s, i, g + 1, |s|) == HandAbove(s, i, g, |s|) + if AboutToCarry(ws, i) then 1 else 0
    decreases |s| - i
  {
    if i < |s| {
      StepQuotient(g, s[i]);
      CarryMovesMap(ws, s, i + 1, NextHand(g, s[i]));
    }
  }

  lemma {:induction false} HandMonotone(s: seq<nat>, i: nat, a: nat, b: nat)
    requires i <= |s| && Positive(s) && a <= b
    ensures Hand(s, i, a) <= Hand(s, i, b)
  {
    if i > 0 {
      HandMonotone(s, i - 1, a, b);
      QuotientMonotone(Hand(s, i - 1, a), Hand(s, i - 1, b), s[i - 1]);
    }
  }

  // ---- All runs -----------------------------------------------------------------------------------

  /** `x` was put under key `k` of the map. */
  ghost predicate PutUnder(sizes: seq<nat>, log: seq<Insertion>, k: nat, x: TaskWithTimestamp)
    requires ValidSizes(sizes) && LogInOrder(log)
  {
    exists i :: 0 <= i < |log| && ToMap(sizes, log[i]) && Key(sizes, log[i]) == k && log[i].entry == x
  }

  /** From its position on the map holds what was put there, nothing was inserted in the future, and
      no entry that does not fit has been passed by. */
  ghost predicate RangeInv(ws: Wheels, sizes: seq<nat>, h: nat, log: seq<Insertion>)
    requires ValidSizes(sizes) && LogInOrder(log)
  {
    && (forall k, x :: k >= ws.taskMapPos ==> (x in AtKey(ws.taskMap, k) <==> PutUnder(sizes, log, k, x)))
    && (forall i :: 0 <= i < |log| ==> HandCount(log[i].tick, log[i].delivering) <= h)
    && (forall i :: 0 <= i < |log| ==> !Overdue(sizes, log[i], h))
  }

  lemma PlacedKeepsRange(ws: Wheels, sizes: seq<nat>, log: seq<Insertion>, ins: Insertion)
    requires ValidSizes(sizes) && Shaped(ws, sizes) && WellFormed(ws) && LogInOrder(log)
    requires ins.tick <= ins.entry.tickCount
    requires RangeInv(ws, sizes, HandCount(ins.tick, ins.delivering), log)
    ensures RangeInv(Placed(ws, ins), sizes, HandCount(ins.tick, ins.delivering), log + [ins])
  {
    var ws', log' := Placed(ws, ins), log + [ins];
    PlacedInMap(ws, sizes, ins);
    forall k, x | k >= ws'.taskMapPos
      ensures x in AtKey(ws'.taskMap, k) <==> PutUnder(sizes, log', k, x)
    {
      PutUnderAppend(sizes, log, ins, k, x);
    }
  }

  lemma PutUnderAppend(sizes: seq<nat>, log: seq<Insertion>, ins: Insertion, k: nat, x: TaskWithTimestamp)
    requires ValidSizes(sizes) && LogInOrder(log) && ins.tick <= ins.entry.tickCount
    ensures PutUnder(sizes, log + [ins], k, x) <==>
      PutUnder(sizes, log, k, x) || (ToMap(sizes, ins) && Key(sizes, ins) == k && ins.entry == x)
  {
    var log' := log + [ins];
    assert log'[|log|] == ins;
    if PutUnder(sizes, log, k, x) {
      var i :| 0 <= i < |log| && ToMap(sizes, log[i]) && Key(sizes, log[i]) == k && log[i].entry == x;
      assert log'[i] == log[i];
    }
  }

  /** A tick leaves the wheels exactly if it makes some insertion overdue. */
  lemma TickLeavesExactly(ws: Wheels, sizes: seq<nat>, h: nat, log: seq<Insertion>)
    requires ValidSizes(sizes) && Shaped(ws, sizes) && WellFormed(ws) && LogInOrder(log)
    requires HandsFrom(ws, sizes, 0, h) && RangeInv(ws, sizes, h, log)
    ensures Tick(ws, 0).OutOfRange? <==> exists i :: 0 <= i < |log| && Overdue(sizes, log[i], h + 1)
  {
    var n, last := |sizes|, ws.levels[|sizes| - 1];
    MapNextTick(ws, sizes, h);
    OutOfRangeExactly(ws, 0);
    UnitPositive(sizes, n);
    if Tick(ws, 0).OutOfRange? {
      var x :| x in AtKey(ws.taskMap, ws.taskMapPos) && x.tickCount % last.scale >= |last.wheel|;
      var i :| 0 <= i < |log| && ToMap(sizes, log[i]) && Key(sizes, log[i]) == ws.taskMapPos && log[i].entry == x;
      HandMonotone(sizes, n, HandCount(log[i].tick, log[i].delivering), h);
      assert Overdue(sizes, log[i], h + 1);
    }
    if i :| 0 <= i < |log| && Overdue(sizes, log[i], h + 1) {
      assert Key(sizes, log[i]) == ws.taskMapPos;
      assert PutUnder(sizes, log, ws.taskMapPos, log[i].entry);
      assert log[i].entry in AtKey(ws.taskMap, ws.taskMapPos);
    }
  }

  lemma MapNextTick(ws: Wheels, sizes: seq<nat>, h: nat)
    requires ValidSizes(sizes) && Shaped(ws, sizes) && WellFormed(ws) && HandsFrom(ws, sizes, 0, h)
    ensures ws.taskMapPos == Hand(sizes, |sizes|, h)
    ensures Hand(sizes, |sizes|, h + 1) == ws.taskMapPos + if AboutToCarry(ws, 0) then 1 else 0
  {
    HandsAre(ws, sizes, 0, h);
    HandAboveIsHand(sizes, 0, h, |sizes|);
    HandAboveIsHand(sizes, 0, h + 1, |sizes|);
    CarryMovesMap(ws, sizes, 0, h);
  }

  lemma TickKeepsRange(ws: Wheels, sizes: seq<nat>, h: nat, log: seq<Insertion>)
    requires ValidSizes(sizes) && Shaped(ws, sizes) && WellFormed(ws) && LogInOrder(log)
    requires HandsFrom(ws, sizes, 0, h) && RangeInv(ws, sizes, h, log) && Tick(ws, 0).Ticked?
    ensures RangeInv(Tick(ws, 0).wheels, sizes, h + 1, log)
  {
    TickTakesKey(ws, 0);
    TickLeavesExactly(ws, sizes, h, log);
  }

  lemma StepKeepsRange(cfg: Config, e: Exec, ev: Event)
    requires ValidConfig(cfg) && WellFormed(e.wheels) && |e.wheels.levels| > 0 && Inv(cfg, e)
    requires RangeInv(e.wheels, cfg.sizes, |e.handed|, e.accepted) && Step(cfg, e, ev).Some?
    ensures var e' := Step(cfg, e, ev).value;
      LogInOrder(e'.accepted) && RangeInv(e'.wheels, cfg.sizes, |e'.handed|, e'.accepted)
  {
    match ev
    case ExecuteAt(tp, task) => InsertKeepsRange(cfg, e, tp, task);
    case TimerTick => if !e.delivering { TickKeepsRange(e.wheels, cfg.sizes, |e.handed|, e.accepted); }
    case TasksFinished =>
  }

  lemma {:induction false} RunKeepsRange(cfg: Config, evs: seq<Event>)
    requires ValidConfig(cfg) && Run(cfg, evs).Some?
    ensures Inv(cfg, Run(cfg, evs).value)
    ensures var e := Run(cfg, evs).value; RangeInv(e.wheels, cfg.sizes, |e.handed|, e.accepted)
  {
    RunKeepsInv(cfg, evs);
    if evs != [] {
      RunKeepsRange(cfg, evs[..|evs| - 1]);
      StepKeepsRange(cfg, Run(cfg, evs[..|evs| - 1]).value, evs[|evs| - 1]);
    }
  }

  lemma InsertKeepsRange(cfg: Config, e: Exec, tp: uint64, task: Task)
    requires ValidConfig(cfg) && WellFormed(e.wheels) && Inv(cfg, e)
    requires RangeInv(e.wheels, cfg.sizes, |e.handed|, e.accepted)
    ensures var e' := Insert(cfg, e, tp, task);
      LogInOrder(e'.accepted) && RangeInv(e'.wheels, cfg.sizes, |e'.handed|, e'.accepted)
  {
    InsertKeepsInv(cfg, e, tp, task);
    var v := VirtualTime(cfg.start, tp);
    if v >= e.tick * cfg.dt {
      VirtualTimeTick(v, cfg.dt, e.tick);
      PlacedKeepsRange(
        e.wheels, cfg.sizes, e.accepted, Insertion(e.tick, e.delivering, TaskWithTimestamp(v / cfg.dt, task)));
    }
  }

  // ---- Main results -------------------------------------------------------------------------------

  /** The event is a tick that moves the map position past the key of some accepted entry that was put
      under a key still to come and whose `tick_count % scale` is no slot of the last wheel. */
  ghost predicate MakesOverdue(cfg: Config, e: Exec, ev: Event)
    requires ValidConfig(cfg) && LogInOrder(e.accepted)
  {
    && ev == TimerTick && !e.delivering
    && exists i :: 0 <= i < |e.accepted| && Overdue(cfg.sizes, e.accepted[i], |e.handed| + 1)
  }

  lemma EventLeavesExactly(cfg: Config, e: Exec, ev: Event)
    requires ValidConfig(cfg) && WellFormed(e.wheels) && |e.wheels.levels| > 0
    requires Inv(cfg, e) && RangeInv(e.wheels, cfg.sizes, |e.handed|, e.accepted)
    ensures Step(cfg, e, ev).None? <==> MakesOverdue(cfg, e, ev)
  {
    TickLeavesExactly(e.wheels, cfg.sizes, |e.handed|, e.accepted);
  }

  /** In any run that has stayed in its wheels so far, the next event leaves them if and only if it
      makes an insertion overdue. */
  lemma StepLeavesExactly(cfg: Config, evs: seq<Event>, ev: Event)
    requires ValidConfig(cfg) && Run(cfg, evs).Some?
    ensures LogInOrder(Run(cfg, evs).value.accepted)
    ensures Run(cfg, evs + [ev]).None? <==> MakesOverdue(cfg, Run(cfg, evs).value, ev)
  {
    RunKeepsRange(cfg, evs);
    RunStep(cfg, evs, ev);
    EventLeavesExactly(cfg, Run(cfg, evs).value, ev);
  }

  /** The run is in its wheels before its event `p`, and that event makes an insertion overdue. */
  ghost predicate LeavesAt(cfg: Config, evs: seq<Event>, p: nat)
    requires ValidConfig(cfg) && p < |evs|
  {
    match Run(cfg, evs[..p])
    case None => false
    case Some(e) => LogInOrder(e.accepted) && MakesOverdue(cfg, e, evs[p])
  }

  lemma LeavesAtInPrefix(cfg: Config, evs: seq<Event>, m: nat, p: nat)
    requires ValidConfig(cfg) && p < m <= |evs|
    ensures LeavesAt(cfg, evs[..m], p) <==> LeavesAt(cfg, evs, p)
  {
    assert evs[..m][..p] == evs[..p];
  }

  lemma LastLeavesExactly(cfg: Config, evs: seq<Event>)
    requires ValidConfig(cfg) && evs != [] && Run(cfg, evs[..|evs| - 1]).Some?
    ensures Run(cfg, evs).None? <==> LeavesAt(cfg, evs, |evs| - 1)
  {
    var m := |evs| - 1;
    StepLeavesExactly(cfg, evs[..m], evs[m]);
    assert evs[..m] + [evs[m]] == evs;
  }

  /** A run leaves its wheels if and only if one of its ticks makes an insertion overdue. */
  lemma {:induction false} RunLeavesExactly(cfg: Config, evs: seq<Event>)
    requires ValidConfig(cfg)
    ensures Run(cfg, evs).None? <==> exists p :: 0 <= p < |evs| && LeavesAt(cfg, evs, p)
  {
    if evs != [] {
      var m := |evs| - 1;
      var before := evs[..m];
      RunLeavesExactly(cfg, before);
      forall p | 0 <= p < m
        ensures LeavesAt(cfg, before, p) <==> LeavesAt(cfg, evs, p)
      {
        LeavesAtInPrefix(cfg, evs, m, p);
      }
      if Run(cfg, before).Some? {
        LastLeavesExactly(cfg, evs);
      }
    }
  }
}
