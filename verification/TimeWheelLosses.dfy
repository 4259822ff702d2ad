/** Which accepted entries the timing wheel, as it is written, destroys, and at which tick: an exact
    account over all runs. */
module TimeWheelLosses {
  import opened Basics
  import opened WheelArithmetic
  import opened TimingWheel
  import opened TimeWheelSpec
  import opened TimeWheelSchedule
  import opened TimeWheelRange

  // ---- Where an entry is destroyed --------------------------------------------------------------

  /** A slot of a level above the first, its blocks counted from tick 0. */
  datatype Slot = Slot(level: nat, block: nat)

  ghost function HandWhenInserted(sizes: seq<nat>, ins: Insertion, i: nat): nat
    requires ValidSizes(sizes) && i <= |sizes|
  {
    Hand(sizes, i, HandCount(ins.tick, ins.delivering))
  }

  /** The map had passed the key of the entry when it was inserted. */
  ghost predicate KeyWasPassed(sizes: seq<nat>, ins: Insertion)
    requires ValidSizes(sizes) && ins.tick <= ins.entry.tickCount
  {
    Key(sizes, ins) < HandWhenInserted(sizes, ins, |sizes|)
  }

  /** The slot above the first level from which an entry is taken and destroyed, if there is one. On
      such a level it is the next one with the position it was put at; behind several levels
      it is where the carry that takes its key splices it into the last one. An entry on
      the first level, under a key passed before, or without a slot to be spliced into has none. */
  ghost function TakenFrom(sizes: seq<nat>, ins: Insertion): (r: Option<Slot>)
    requires ValidSizes(sizes) && ins.tick <= ins.entry.tickCount
    ensures r.Some? ==> 1 <= r.value.level < |sizes|
    ensures r.Some? ==> r.value.block >= HandWhenInserted(sizes, ins, r.value.level)
  {
    var n, i := |sizes|, LevelOf(sizes, ins);
    if i == 0 || n == 1 then None
    else if i < n then Some(Slot(i, NextAt(HandWhenInserted(sizes, ins, i), SumAt(sizes, ins, i), sizes[i])))
    else if KeyWasPassed(sizes, ins) || Misfits(sizes, ins) then None
    else
      SplicedAhead(sizes, ins);
      Some(Slot(n - 1, SplicedAt(sizes, ins)))
  }

  lemma TakenFromLevel(sizes: seq<nat>, ins: Insertion, i: nat, g: nat, k: nat, size: nat)
    requires ValidSizes(sizes) && ins.tick <= ins.entry.tickCount && LevelOf(sizes, ins) == i && 0 < i < |sizes|
    requires HandWhenInserted(sizes, ins, i) == g && SumAt(sizes, ins, i) == k && sizes[i] == size
    ensures TakenFrom(sizes, ins) == Some(Slot(i, NextAt(g, k, size)))
  {
  }

  /** The block of the last level at which the carry over the entry's key splices it. */
  ghost function SplicedAt(sizes: seq<nat>, ins: Insertion): nat
    requires ValidSizes(sizes) && ins.tick <= ins.entry.tickCount
  {
    UnitPositive(sizes, |sizes|);
    Key(sizes, ins) * sizes[|sizes| - 1] + ins.entry.tickCount % Unit(sizes, |sizes|)
  }

  lemma SplicedAhead(sizes: seq<nat>, ins: Insertion)
    requires ValidSizes(sizes) && ins.tick <= ins.entry.tickCount
    requires !KeyWasPassed(sizes, ins)
    ensures SplicedAt(sizes, ins) >= HandWhenInserted(sizes, ins, |sizes| - 1)
  {
    UnitPositive(sizes, |sizes|);
    LaterBlockIsAhead(
      HandWhenInserted(sizes, ins, |sizes| - 1), sizes[|sizes| - 1], Key(sizes, ins),
      ins.entry.tickCount % Unit(sizes, |sizes|));
  }

  /** The tick that destroys an entry, in closed form: the one with which the hand of its level passes
      its block. It is never one taken before the entry was inserted. */
  ghost function LostTick(sizes: seq<nat>, ins: Insertion): (r: Option<nat>)
    requires ValidSizes(sizes) && ins.tick <= ins.entry.tickCount
    ensures r.Some? ==> r.value >= HandCount(ins.tick, ins.delivering)
  {
    match TakenFrom(sizes, ins)
    case None => None
    case Some(slot) =>
      PassedExactly(sizes, slot.level, HandCount(ins.tick, ins.delivering), slot.block);
      Some(slot.block * Unit(sizes, slot.level) - HeadStart(sizes, slot.level) - 1)
  }

  /** The entries destroyed by the first `h` ticks. */
  ghost function Destroyed(sizes: seq<nat>, log: seq<Insertion>, h: nat): multiset<TaskWithTimestamp>
    requires ValidSizes(sizes) && LogInOrder(log)
  {
    if log == [] then multiset{}
    else
      var last := log[|log| - 1];
      Destroyed(sizes, log[..|log| - 1], h)
        + (if LostTick(sizes, last).Some? && LostTick(sizes, last).value < h then multiset{last.entry} else multiset{})
  }

  lemma LostByHand(sizes: seq<nat>, ins: Insertion, h: nat)
    requires ValidSizes(sizes) && ins.tick <= ins.entry.tickCount
    ensures var slot := TakenFrom(sizes, ins);
      LostTick(sizes, ins).Some? && LostTick(sizes, ins).value < h
      <==> slot.Some? && Hand(sizes, slot.value.level, h) > slot.value.block
  {
    var slot := TakenFrom(sizes, ins);
    if slot.Some? {
      PassedExactly(sizes, slot.value.level, h, slot.value.block);
    }
  }

  // ---- What the upper levels hold ---------------------------------------------------------------

  /** How many copies of `x` will be taken from block `b` of level `i`, whose hand is at `g`. */
  ghost function Held(ws: Wheels, sizes: seq<nat>, i: nat, g: nat, b: nat, x: TaskWithTimestamp): nat
    requires ValidSizes(sizes) && Shaped(ws, sizes) && i < |sizes|
  {
    (if g <= b < g + sizes[i] then multiset(ws.levels[i].wheel[b % sizes[i]])[x] else 0)
    + (if i + 1 == |sizes| && b / sizes[i] > g / sizes[i] && SplicedInto(sizes, x, b)
       then multiset(AtKey(ws.taskMap, b / sizes[i]))[x] else 0)
  }

  /** A carry splices `x` at the position of block `b` of the last level. */
  ghost predicate SplicedInto(sizes: seq<nat>, x: TaskWithTimestamp, b: nat)
    requires ValidSizes(sizes)
  {
    UnitPositive(sizes, |sizes|);
    x.tickCount % Unit(sizes, |sizes|) == b % sizes[|sizes| - 1]
  }

  /** How many insertions of `x` are to be taken from that slot. */
  ghost function Due(sizes: seq<nat>, log: seq<Insertion>, slot: Slot, x: TaskWithTimestamp): nat
    requires ValidSizes(sizes) && LogInOrder(log)
  {
    if log == [] then 0
    else
      var last := log[|log| - 1];
      Due(sizes, log[..|log| - 1], slot, x)
        + (if last.entry == x && TakenFrom(sizes, last) == Some(slot) then 1 else 0)
  }

  lemma DueAppend(sizes: seq<nat>, log: seq<Insertion>, ins: Insertion, slot: Slot, x: TaskWithTimestamp)
    requires ValidSizes(sizes) && LogInOrder(log) && ins.tick <= ins.entry.tickCount
    ensures Due(sizes, log + [ins], slot, x)
      == Due(sizes, log, slot, x) + (if ins.entry == x && TakenFrom(sizes, ins) == Some(slot) then 1 else 0)
  {
    assert (log + [ins])[..|log|] == log;
  }

  // ---- One insertion ------------------------------------------------------------------------------

  lemma AddToSlotHeld(ws: Wheels, sizes: seq<nat>, l: nat, k: nat, entry: TaskWithTimestamp,
                      i: nat, g: nat, b: nat, x: TaskWithTimestamp)
    requires ValidSizes(sizes) && Shaped(ws, sizes) && l < |sizes| && i < |sizes| && b >= g
    ensures Held(AddToSlot(ws, l, k % sizes[l], entry), sizes, i, g, b, x)
      == Held(ws, sizes, i, g, b, x) + (if i == l && b == NextAt(g, k, sizes[i]) && x == entry then 1 else 0)
  {
    if i == l && b < g + sizes[i] && b % sizes[i] == k % sizes[i] {
      SameRemainder(b, NextAt(g, k, sizes[i]), sizes[i]);
    }
  }

  lemma AddToMapHeld(ws: Wheels, sizes: seq<nat>, k: nat, entry: TaskWithTimestamp,
                     i: nat, g: nat, b: nat, x: TaskWithTimestamp)
    requires ValidSizes(sizes) && Shaped(ws, sizes) && i < |sizes|
    ensures Held(AddToMap(ws, k, entry), sizes, i, g, b, x)
      == Held(ws, sizes, i, g, b, x)
        + (if i + 1 == |sizes| && b / sizes[i] == k > g / sizes[i] && SplicedInto(sizes, x, b) && x == entry
           then 1 else 0)
  {
  }

  /** A block of the last level is where an entry is spliced exactly if it has its key and position. */
  lemma SplicedAtExactly(sizes: seq<nat>, ins: Insertion, b: nat)
    requires ValidSizes(sizes) && ins.tick <= ins.entry.tickCount && ToMap(sizes, ins)
    ensures var n := |sizes|;
      b / sizes[n - 1] == Key(sizes, ins) && SplicedInto(sizes, ins.entry, b)
      <==> !Misfits(sizes, ins) && b == SplicedAt(sizes, ins)
  {
    var n := |sizes|;
    UnitPositive(sizes, n);
    var s, r := sizes[n - 1], ins.entry.tickCount % Unit(sizes, n);
    if r < s {
      Compose(Key(sizes, ins), r, s);
      if b / s == Key(sizes, ins) && b % s == r {
        SameDigits(b, SplicedAt(sizes, ins), s);
      }
    }
  }

  lemma PlaceOnLevelHeld(ws: Wheels, sizes: seq<nat>, ins: Insertion, i: nat, b: nat, x: TaskWithTimestamp)
    requires ValidSizes(sizes) && Shaped(ws, sizes) && WellFormed(ws) && ins.tick <= ins.entry.tickCount
    requires 1 <= i < |sizes| && b >= HandWhenInserted(sizes, ins, i) && !ToMap(sizes, ins)
    ensures var g := HandWhenInserted(sizes, ins, i);
      Held(Placed(ws, ins), sizes, i, g, b, x)
      == Held(ws, sizes, i, g, b, x)
        + (if ins.entry == x && TakenFrom(sizes, ins) == Some(Slot(i, b)) then 1 else 0)
  {
    var l := LevelOf(sizes, ins);
    LevelOfMap(sizes, ins);
    PlacedOnLevel(ws, sizes, ins);
    AddToSlotHeld(
      ws, sizes, l, SumAt(sizes, ins, l), ins.entry, i, HandWhenInserted(sizes, ins, i), b, x);
  }

  lemma TakenFromMapExactly(sizes: seq<nat>, ins: Insertion, b: nat)
    requires ValidSizes(sizes) && ins.tick <= ins.entry.tickCount && ToMap(sizes, ins) && |sizes| > 1
    ensures var i := |sizes| - 1;
      TakenFrom(sizes, ins) == Some(Slot(i, b))
      <==> b / sizes[i] == Key(sizes, ins) > HandWhenInserted(sizes, ins, i) / sizes[i]
           && SplicedInto(sizes, ins.entry, b)
  {
    LevelOfMap(sizes, ins);
    SplicedAtExactly(sizes, ins, b);
    var i := |sizes| - 1;
    assert HandWhenInserted(sizes, ins, i + 1) == 1 + HandWhenInserted(sizes, ins, i) / sizes[i];
  }

  lemma PlaceInMapHeld(ws: Wheels, sizes: seq<nat>, ins: Insertion, i: nat, b: nat, x: TaskWithTimestamp)
    requires ValidSizes(sizes) && Shaped(ws, sizes) && WellFormed(ws) && ins.tick <= ins.entry.tickCount
    requires 1 <= i < |sizes| && b >= HandWhenInserted(sizes, ins, i) && ToMap(sizes, ins)
    ensures var g := HandWhenInserted(sizes, ins, i);
      Held(Placed(ws, ins), sizes, i, g, b, x)
      == Held(ws, sizes, i, g, b, x)
        + (if ins.entry == x && TakenFrom(sizes, ins) == Some(Slot(i, b)) then 1 else 0)
  {
    LevelOfMap(sizes, ins);
    PlacedOnLevel(ws, sizes, ins);
    AddToMapHeld(ws, sizes, Key(sizes, ins), ins.entry, i, HandWhenInserted(sizes, ins, i), b, x);
    if i + 1 == |sizes| {
      TakenFromMapExactly(sizes, ins, b);
    }
  }

  /** Placing an entry adds it to what will be taken from its slot, and to nothing else. */
  lemma PlaceAddsHeld(ws: Wheels, sizes: seq<nat>, ins: Insertion, i: nat, b: nat, x: TaskWithTimestamp)
    requires ValidSizes(sizes) && Shaped(ws, sizes) && WellFormed(ws) && ins.tick <= ins.entry.tickCount
    requires 1 <= i < |sizes| && b >= HandWhenInserted(sizes, ins, i)
    ensures var g := HandWhenInserted(sizes, ins, i);
      Held(Placed(ws, ins), sizes, i, g, b, x)
      == Held(ws, sizes, i, g, b, x)
        + (if ins.entry == x && TakenFrom(sizes, ins) == Some(Slot(i, b)) then 1 else 0)
  {
    if ToMap(sizes, ins) {
      PlaceInMapHeld(ws, sizes, ins, i, b, x);
    } else {
      PlaceOnLevelHeld(ws, sizes, ins, i, b, x);
    }
  }

  // ---- One tick -----------------------------------------------------------------------------------

  /** The wheels after the move of level `j` alone. */
  ghost function Advanced(ws: Wheels, j: nat): (r: Wheels)
    requires WellFormed(ws) && j < |ws.levels|
    ensures WellFormed(r) && SameShape(ws, r)
  {
    ws.(levels := ws.levels[j := Advance(ws.levels[j])])
  }

  /** A tick as one move of its own level, and the tick of the next one if it carries: that destroys the
      slot it takes, and what it destroys itself. */
  lemma TickCarries(ws: Wheels, j: nat)
    requires WellFormed(ws) && j < |ws.levels| && Tick(ws, j).Ticked?
    ensures var w, r := ws.levels[j], Tick(ws, j);
      var ws' := Advanced(ws, j);
      if w.currentPos + 1 == |w.wheel| && j + 1 < |ws.levels|
      then Tick(ws', j + 1).Ticked? && r.wheels == Tick(ws', j + 1).wheels
           && r.lost == Tick(ws', j + 1).out + Tick(ws', j + 1).lost
      else r.lost == [] && (w.currentPos + 1 != |w.wheel| ==> r.wheels == ws')
  {
  }

  lemma HeldFrame(ws: Wheels, ws': Wheels, sizes: seq<nat>, i: nat, g: nat, b: nat, x: TaskWithTimestamp)
    requires ValidSizes(sizes) && Shaped(ws, sizes) && Shaped(ws', sizes) && i < |sizes|
    requires ws'.levels[i] == ws.levels[i] && ws'.taskMap == ws.taskMap
    ensures Held(ws', sizes, i, g, b, x) == Held(ws, sizes, i, g, b, x)
  {
  }

  /** A tick of level `j` leaves what will be taken from block `b` of level `i` as it was. */
  ghost predicate KeepsHeld(
    ws: Wheels, sizes: seq<nat>, j: nat, g: nat, i: nat, b: nat, x: TaskWithTimestamp)
    requires ValidSizes(sizes) && Shaped(ws, sizes) && WellFormed(ws) && j <= i < |sizes|
  {
    match Tick(ws, j)
    case OutOfRange => false
    case Ticked(ws', _, _) =>
      Shaped(ws', sizes)
      && Held(ws', sizes, i, HandAbove(sizes, j, g + 1, i), b, x) == Held(ws, sizes, i, HandAbove(sizes, j, g, i), b, x)
  }

  lemma CarryKeepsHeld(
    ws: Wheels, sizes: seq<nat>, j: nat, g: nat, i: nat, b: nat, x: TaskWithTimestamp)
    requires ValidSizes(sizes) && Shaped(ws, sizes) && WellFormed(ws) && j < i < |sizes|
    requires ws.levels[j].currentPos == g % sizes[j] && Tick(ws, j).Ticked? && Shaped(Tick(ws, j).wheels, sizes)
    requires var ws' := Advanced(ws, j);
      g % sizes[j] + 1 == sizes[j] ==> KeepsHeld(ws', sizes, j + 1, NextHand(g, sizes[j]), i, b, x)
    ensures KeepsHeld(ws, sizes, j, g, i, b, x)
  {
    var ws' := Advanced(ws, j);
    TickCarries(ws, j);
    HandAboveSteps(sizes, j, g, i);
    HeldFrame(ws, ws', sizes, i, HandAbove(sizes, j, g, i), b, x);
  }

  /** A carry ticks the next level, with all hands from there up where they were. */
  lemma CarryReaches(ws: Wheels, sizes: seq<nat>, j: nat, g: nat)
    requires ValidSizes(sizes) && Shaped(ws, sizes) && WellFormed(ws) && j + 1 < |sizes|
    requires HandsFrom(ws, sizes, j, g) && Tick(ws, j).Ticked? && g % sizes[j] + 1 == sizes[j]
    ensures var ws' := Advanced(ws, j);
      && Shaped(ws', sizes) && WellFormed(ws') && Tick(ws', j + 1).Ticked?
      && HandsFrom(ws', sizes, j + 1, NextHand(g, sizes[j]))
  {
    var ws' := Advanced(ws, j);
    TickCarries(ws, j);
    HandsFrame(ws, ws', sizes, j + 1, NextHand(g, sizes[j]));
  }

  lemma ShapeKept(ws: Wheels, ws': Wheels, sizes: seq<nat>)
    requires Shaped(ws, sizes) && SameShape(ws, ws')
    ensures Shaped(ws', sizes)
  {
  }

  /** A tick of level `j` leaves what will be taken later from the levels above as it was, and from its
      own level too. */
  lemma {:induction false} TickKeepsHeld(
    ws: Wheels, sizes: seq<nat>, j: nat, g: nat, i: nat, b: nat, x: TaskWithTimestamp)
    requires ValidSizes(sizes) && Shaped(ws, sizes) && WellFormed(ws) && j <= i < |sizes|
    requires HandsFrom(ws, sizes, j, g) && Tick(ws, j).Ticked? && b >= HandAbove(sizes, j, g + 1, i)
    ensures KeepsHeld(ws, sizes, j, g, i, b, x)
    decreases i - j
  {
    ShapeKept(ws, Tick(ws, j).wheels, sizes);
    if j == i {
      TickKeepsOwn(ws, sizes, i, g, b, x);
    } else {
      var ws' := Advanced(ws, j);
      if g % sizes[j] + 1 == sizes[j] {
        CarryReaches(ws, sizes, j, g);
        HandAboveSteps(sizes, j, g, i);
        TickKeepsHeld(ws', sizes, j + 1, NextHand(g, sizes[j]), i, b, x);
      }
      CarryKeepsHeld(ws, sizes, j, g, i, b, x);
    }
  }

  lemma TickKeepsOwn(ws: Wheels, sizes: seq<nat>, i: nat, g: nat, b: nat, x: TaskWithTimestamp)
    requires ValidSizes(sizes) && Shaped(ws, sizes) && WellFormed(ws) && i < |sizes|
    requires HandsFrom(ws, sizes, i, g) && Tick(ws, i).Ticked? && b > g
    requires Shaped(Tick(ws, i).wheels, sizes)
    ensures KeepsHeld(ws, sizes, i, g, i, b, x)
  {
    AdvanceSlots(ws.levels[i], g, b, x);
    if i + 1 == |sizes| {
      TickKeepsLast(ws, sizes, g, b, x);
    }
  }

  lemma TickKeepsLast(ws: Wheels, sizes: seq<nat>, g: nat, b: nat, x: TaskWithTimestamp)
    requires ValidSizes(sizes) && Shaped(ws, sizes) && WellFormed(ws)
    requires HandsFrom(ws, sizes, |sizes| - 1, g) && Tick(ws, |sizes| - 1).Ticked? && b > g
    requires Shaped(Tick(ws, |sizes| - 1).wheels, sizes)
    ensures var i := |sizes| - 1;
      Held(Tick(ws, i).wheels, sizes, i, g + 1, b, x) == Held(ws, sizes, i, g, b, x)
  {
    var i := |sizes| - 1;
    var s := sizes[i];
    var w := Advance(ws.levels[i]);
    AdvanceSlots(ws.levels[i], g, b, x);
    StepQuotient(g, s);
    assert ws.taskMapPos == NextHand(g, s) by { assert HandsFrom(ws, sizes, i + 1, NextHand(g, s)); }
    if g % s + 1 == s {
      BlockIsWindow(b, g + 1, s);
      var list := AtKey(ws.taskMap, ws.taskMapPos);
      if ws.taskMapPos in ws.taskMap {
        DistributeCounts(w.wheel, list, w.scale, 1, b % s, x);
      }
      QuotientMonotone(g + 1, b, s);
    }
  }

  /** The insertion is destroyed with the next tick of level `j`, whose hand is at `g`. */
  ghost predicate TakenNow(sizes: seq<nat>, ins: Insertion, j: nat, g: nat)
    requires ValidSizes(sizes) && j < |sizes| && ins.tick <= ins.entry.tickCount
  {
    match TakenFrom(sizes, ins)
    case None => false
    case Some(slot) =>
      slot.level > j && HandAbove(sizes, j, g, slot.level) == slot.block < HandAbove(sizes, j, g + 1, slot.level)
  }

  ghost function LostNow(sizes: seq<nat>, log: seq<Insertion>, j: nat, g: nat, x: TaskWithTimestamp): nat
    requires ValidSizes(sizes) && LogInOrder(log) && j < |sizes|
  {
    if log == [] then 0
    else
      var last := log[|log| - 1];
      LostNow(sizes, log[..|log| - 1], j, g, x) + (if last.entry == x && TakenNow(sizes, last, j, g) then 1 else 0)
  }

  lemma TakenNowAbove(sizes: seq<nat>, ins: Insertion, j: nat, g: nat)
    requires ValidSizes(sizes) && j < |sizes| && ins.tick <= ins.entry.tickCount
    ensures var g' := NextHand(g, sizes[j]);
      TakenNow(sizes, ins, j, g)
      <==> j + 1 < |sizes| && g % sizes[j] + 1 == sizes[j]
           && (TakenFrom(sizes, ins) == Some(Slot(j + 1, g')) || TakenNow(sizes, ins, j + 1, g'))
  {
    var slot := TakenFrom(sizes, ins);
    if slot.Some? && slot.value.level > j {
      HandAboveSteps(sizes, j, g, slot.value.level);
    }
  }

  /** What a carry loses: the slot it takes from the next level, and what that level's carry loses. */
  lemma {:induction false} LostNowAbove(sizes: seq<nat>, log: seq<Insertion>, j: nat, g: nat, x: TaskWithTimestamp)
    requires ValidSizes(sizes) && LogInOrder(log) && j < |sizes|
    ensures var g' := NextHand(g, sizes[j]);
      LostNow(sizes, log, j, g, x)
      == if j + 1 < |sizes| && g % sizes[j] + 1 == sizes[j]
         then Due(sizes, log, Slot(j + 1, g'), x) + LostNow(sizes, log, j + 1, g', x) else 0
  {
    if log != [] {
      LostNowAbove(sizes, log[..|log| - 1], j, g, x);
      TakenNowAbove(sizes, log[|log| - 1], j, g);
    }
  }

  /** From level `j` up, what the levels hold is what is due from them. */
  ghost predicate HeldAgrees(ws: Wheels, sizes: seq<nat>, j: nat, g: nat, log: seq<Insertion>)
    requires ValidSizes(sizes) && Shaped(ws, sizes) && LogInOrder(log) && j < |sizes|
  {
    forall i, b, x :: j < i < |sizes| && b >= HandAbove(sizes, j, g, i) ==>
      Held(ws, sizes, i, HandAbove(sizes, j, g, i), b, x) == Due(sizes, log, Slot(i, b), x)
  }

  lemma HeldAgreesAbove(
    ws: Wheels, ws': Wheels, sizes: seq<nat>, j: nat, g: nat, log: seq<Insertion>, x: TaskWithTimestamp)
    requires ValidSizes(sizes) && Shaped(ws, sizes) && Shaped(ws', sizes) && LogInOrder(log) && j + 1 < |sizes|
    requires HeldAgrees(ws, sizes, j, g, log) && ws'.taskMap == ws.taskMap
    requires forall i :: j < i < |sizes| ==> ws'.levels[i] == ws.levels[i]
    ensures HeldAgrees(ws', sizes, j + 1, NextHand(g, sizes[j]), log)
    ensures var g' := NextHand(g, sizes[j]);
      Held(ws', sizes, j + 1, g', g', x) == Due(sizes, log, Slot(j + 1, g'), x)
  {
    var g' := NextHand(g, sizes[j]);
    assert HandAbove(sizes, j, g, j + 1) == g';
    forall i, b, y | j + 1 < i < |sizes| && b >= HandAbove(sizes, j + 1, g', i)
      ensures Held(ws', sizes, i, HandAbove(sizes, j + 1, g', i), b, y) == Due(sizes, log, Slot(i, b), y)
    {
      assert HandAbove(sizes, j, g, i) == HandAbove(sizes, j + 1, g', i);
    }
  }

  /** A tick of level `j` destroys exactly what is due from the slots its carries take. */
  lemma {:induction false} TickLoses(
    ws: Wheels, sizes: seq<nat>, j: nat, g: nat, log: seq<Insertion>, x: TaskWithTimestamp)
    requires ValidSizes(sizes) && Shaped(ws, sizes) && WellFormed(ws) && LogInOrder(log) && j < |sizes|
    requires HandsFrom(ws, sizes, j, g) && Tick(ws, j).Ticked? && HeldAgrees(ws, sizes, j, g, log)
    ensures multiset(Tick(ws, j).lost)[x] == LostNow(sizes, log, j, g, x)
    decreases |sizes| - j
  {
    LostNowAbove(sizes, log, j, g, x);
    TickCarries(ws, j);
    var w := ws.levels[j];
    var ws' := Advanced(ws, j);
    if w.currentPos + 1 == |w.wheel| && j + 1 < |sizes| {
      var g' := NextHand(g, sizes[j]);
      CarryReaches(ws, sizes, j, g);
      HeldAgreesAbove(ws, ws', sizes, j, g, log, x);
      TickLoses(ws', sizes, j + 1, g', log, x);
      TickTakesSlot(ws', sizes, j + 1, g', x);
    }
  }

  lemma TickTakesSlot(ws: Wheels, sizes: seq<nat>, i: nat, g: nat, x: TaskWithTimestamp)
    requires ValidSizes(sizes) && Shaped(ws, sizes) && WellFormed(ws) && i < |sizes|
    requires HandsFrom(ws, sizes, i, g) && Tick(ws, i).Ticked?
    ensures multiset(Tick(ws, i).out)[x] == Held(ws, sizes, i, g, g, x)
  {
  }

  // ---- All runs -----------------------------------------------------------------------------------

  lemma {:induction false} DestroyedSteps(sizes: seq<nat>, log: seq<Insertion>, h: nat, x: TaskWithTimestamp)
    requires ValidSizes(sizes) && LogInOrder(log)
    ensures Destroyed(sizes, log, h + 1)[x] == Destroyed(sizes, log, h)[x] + LostNow(sizes, log, 0, h, x)
  {
    if log != [] {
      DestroyedSteps(sizes, log[..|log| - 1], h, x);
      TakenNowExactly(sizes, log[|log| - 1], h);
    }
  }

  lemma TakenNowExactly(sizes: seq<nat>, ins: Insertion, h: nat)
    requires ValidSizes(sizes) && ins.tick <= ins.entry.tickCount
    ensures TakenNow(sizes, ins, 0, h) <==> LostTick(sizes, ins) == Some(h)
  {
    LostByHand(sizes, ins, h);
    LostByHand(sizes, ins, h + 1);
    var slot := TakenFrom(sizes, ins);
    if slot.Some? {
      HandAboveIsHand(sizes, 0, h, slot.value.level);
      HandAboveIsHand(sizes, 0, h + 1, slot.value.level);
      HandMovesByOne(sizes, slot.value.level, h);
    }
  }

  lemma NextHandMoves(g: nat, g': nat, d: nat)
    requires d > 0 && g <= g' <= g + 1
    ensures NextHand(g, d) <= NextHand(g', d) <= NextHand(g, d) + 1
  {
    StepQuotient(g, d);
  }

  lemma HandIsNextHand(s: seq<nat>, i: nat, h: nat)
    requires 0 < i <= |s| && Positive(s)
    ensures Hand(s, i, h) == NextHand(Hand(s, i - 1, h), s[i - 1])
  {
  }

  lemma {:induction false} HandMovesByOne(s: seq<nat>, i: nat, h: nat)
    requires i <= |s| && Positive(s)
    ensures Hand(s, i, h) <= Hand(s, i, h + 1) <= Hand(s, i, h) + 1
  {
    if i > 0 {
      HandMovesByOne(s, i - 1, h);
      HandIsNextHand(s, i, h);
      HandIsNextHand(s, i, h + 1);
      NextHandMoves(Hand(s, i - 1, h), Hand(s, i - 1, h + 1), s[i - 1]);
    }
  }

  /** What the upper levels hold, and what has been destroyed, agrees with the log. */
  ghost predicate LossInv(ws: Wheels, sizes: seq<nat>, h: nat, log: seq<Insertion>, lost: TaskList)
    requires ValidSizes(sizes) && Shaped(ws, sizes) && LogInOrder(log)
  {
    && HeldAgrees(ws, sizes, 0, h, log)
    && multiset(lost) == Destroyed(sizes, log, h)
  }

  lemma AcceptKeepsLosses(ws: Wheels, sizes: seq<nat>, log: seq<Insertion>, lost: TaskList, ins: Insertion)
    requires ValidSizes(sizes) && Shaped(ws, sizes) && WellFormed(ws) && LogInOrder(log)
    requires ins.tick <= ins.entry.tickCount && Shaped(Placed(ws, ins), sizes)
    requires LossInv(ws, sizes, HandCount(ins.tick, ins.delivering), log, lost)
    ensures LossInv(Placed(ws, ins), sizes, HandCount(ins.tick, ins.delivering), log + [ins], lost)
  {
    var h := HandCount(ins.tick, ins.delivering);
    assert (log + [ins])[..|log|] == log;
    forall i, b, x | 0 < i < |sizes| && b >= HandAbove(sizes, 0, h, i)
      ensures Held(Placed(ws, ins), sizes, i, HandAbove(sizes, 0, h, i), b, x)
        == Due(sizes, log + [ins], Slot(i, b), x)
    {
      HandAboveIsHand(sizes, 0, h, i);
      PlaceAddsHeld(ws, sizes, ins, i, b, x);
      DueAppend(sizes, log, ins, Slot(i, b), x);
    }
  }

  lemma TickKeepsLosses(ws: Wheels, sizes: seq<nat>, h: nat, log: seq<Insertion>, lost: TaskList)
    requires ValidSizes(sizes) && Shaped(ws, sizes) && WellFormed(ws) && LogInOrder(log)
    requires HandsFrom(ws, sizes, 0, h) && Tick(ws, 0).Ticked? && LossInv(ws, sizes, h, log, lost)
    ensures Shaped(Tick(ws, 0).wheels, sizes)
    ensures LossInv(Tick(ws, 0).wheels, sizes, h + 1, log, lost + Tick(ws, 0).lost)
  {
    TickMovesHands(ws, sizes, 0, h);
    forall x
      ensures multiset(lost + Tick(ws, 0).lost)[x] == Destroyed(sizes, log, h + 1)[x]
    {
      TickLoses(ws, sizes, 0, h, log, x);
      DestroyedSteps(sizes, log, h, x);
    }
    forall i, b, x | 0 < i < |sizes| && b >= HandAbove(sizes, 0, h + 1, i)
      ensures Held(Tick(ws, 0).wheels, sizes, i, HandAbove(sizes, 0, h + 1, i), b, x)
        == Due(sizes, log, Slot(i, b), x)
    {
      TickKeepsHeld(ws, sizes, 0, h, i, b, x);
      HandAboveIsHand(sizes, 0, h, i);
      HandAboveIsHand(sizes, 0, h + 1, i);
      HandMovesByOne(sizes, i, h);
    }
  }

  lemma {:induction false} InitialLosses(sizes: seq<nat>)
    requires ValidSizes(sizes)
    ensures Shaped(InitialWheels(sizes), sizes) && LossInv(InitialWheels(sizes), sizes, 0, [], [])
  {
    InitialWellFormed(sizes);
  }

  lemma StepKeepsLosses(cfg: Config, e: Exec, ev: Event)
    requires ValidConfig(cfg) && WellFormed(e.wheels) && |e.wheels.levels| > 0 && Inv(cfg, e)
    requires LossInv(e.wheels, cfg.sizes, |e.handed|, e.accepted, e.lost) && Step(cfg, e, ev).Some?
    requires Inv(cfg, Step(cfg, e, ev).value)
    ensures var e' := Step(cfg, e, ev).value; LossInv(e'.wheels, cfg.sizes, |e'.handed|, e'.accepted, e'.lost)
  {
    match ev
    case ExecuteAt(tp, task) => InsertKeepsLosses(cfg, e, tp, task);
    case TimerTick =>
      if !e.delivering {
        TickKeepsLosses(e.wheels, cfg.sizes, |e.handed|, e.accepted, e.lost);
      }
    case TasksFinished =>
  }

  lemma InsertKeepsLosses(cfg: Config, e: Exec, tp: uint64, task: Task)
    requires ValidConfig(cfg) && WellFormed(e.wheels) && Inv(cfg, e) && Inv(cfg, Insert(cfg, e, tp, task))
    requires LossInv(e.wheels, cfg.sizes, |e.handed|, e.accepted, e.lost)
    ensures var e' := Insert(cfg, e, tp, task);
      LossInv(e'.wheels, cfg.sizes, |e'.handed|, e'.accepted, e'.lost)
  {
    var v := VirtualTime(cfg.start, tp);
    if v >= e.tick * cfg.dt {
      VirtualTimeTick(v, cfg.dt, e.tick);
      AcceptKeepsLosses(e.wheels, cfg.sizes, e.accepted, e.lost,
                        Insertion(e.tick, e.delivering, TaskWithTimestamp(v / cfg.dt, task)));
    }
  }

  lemma {:induction false} RunKeepsLosses(cfg: Config, evs: seq<Event>)
    requires ValidConfig(cfg) && Run(cfg, evs).Some?
    ensures Inv(cfg, Run(cfg, evs).value)
    ensures var e := Run(cfg, evs).value; LossInv(e.wheels, cfg.sizes, |e.handed|, e.accepted, e.lost)
  {
    RunKeepsInv(cfg, evs);
    if evs == [] {
      InitialLosses(cfg.sizes);
    } else {
      RunKeepsLosses(cfg, evs[..|evs| - 1]);
      StepKeepsLosses(cfg, Run(cfg, evs[..|evs| - 1]).value, evs[|evs| - 1]);
    }
  }

  // ---- Main results -------------------------------------------------------------------------------

  /** In every run, for any sizes, what has been destroyed after `h` ticks are exactly the accepted
      entries whose `LostTick` is below `h`, each as often as it was accepted. */
  lemma DestroyedExactlyWhenPassed(cfg: Config, evs: seq<Event>)
    requires ValidConfig(cfg) && Run(cfg, evs).Some?
    ensures var e := Run(cfg, evs).value;
      LogInOrder(e.accepted) && multiset(e.lost) == Destroyed(cfg.sizes, e.accepted, |e.handed|)
  {
    RunKeepsLosses(cfg, evs);
  }

  lemma FateWithOneWheel(sizes: seq<nat>, ins: Insertion)
    requires ValidSizes(sizes) && ins.tick <= ins.entry.tickCount && |sizes| == 1
    ensures LostTick(sizes, ins).None?
    ensures DueTick(sizes, ins).None? <==> ToMap(sizes, ins) && KeyWasPassed(sizes, ins)
  {
    var d, h := ins.entry.tickCount - ins.tick, HandCount(ins.tick, ins.delivering);
    assert ToMap(sizes, ins) <==> Block(sizes, 0, d) >= sizes[0];
    assert Key(sizes, ins) == Block(sizes, 0, d) / sizes[0] + Block(sizes, 0, ins.tick) / sizes[0];
    assert Hand(sizes, 1, h) == 1 + Hand(sizes, 0, h) / sizes[0];
  }

  lemma FateWithMany(sizes: seq<nat>, ins: Insertion)
    requires ValidSizes(sizes) && ins.tick <= ins.entry.tickCount && |sizes| > 1
    ensures DueTick(sizes, ins).Some? <==> LevelOf(sizes, ins) == 0
    ensures LostTick(sizes, ins).None?
      <==> LevelOf(sizes, ins) == 0
           || (ToMap(sizes, ins) && (KeyWasPassed(sizes, ins) || Misfits(sizes, ins)))
  {
    var d := ins.entry.tickCount - ins.tick;
    LevelOfMap(sizes, ins);
    assert Block(sizes, 0, d) == d;
  }

  /** No entry is both handed out and destroyed; and neither ever happens to it if and only if it went
      to the map, under a key passed before or, behind several levels, with no slot to be
      spliced into. */
  lemma FateExactly(sizes: seq<nat>, ins: Insertion)
    requires ValidSizes(sizes) && ins.tick <= ins.entry.tickCount
    ensures DueTick(sizes, ins).None? || LostTick(sizes, ins).None?
    ensures DueTick(sizes, ins).None? && LostTick(sizes, ins).None?
      <==> ToMap(sizes, ins) && (KeyWasPassed(sizes, ins) || (|sizes| > 1 && Misfits(sizes, ins)))
  {
    if |sizes| == 1 {
      FateWithOneWheel(sizes, ins);
    } else {
      FateWithMany(sizes, ins);
    }
  }
}
