/** In which order the timing wheel, as it is written, hands out the tasks of one tick, over all runs. */
module TimeWheelOrder {
  import opened Basics
  import opened WheelArithmetic
  import opened TimingWheel
  import opened TimeWheelSpec
  import opened TimeWheelSchedule

  // ---- The order ----------------------------------------------------------------------------------

  /** How an entry gets into its slot of the first wheel: put there directly, before or after the carry that
      begins the turn of the slot, or spliced in by that carry. */
  datatype Part = Early | Far | Late

  function PartOf(sizes: seq<nat>, ins: Insertion, k: nat): Part
    requires |sizes| > 0 && sizes[0] > 0 && ins.tick <= ins.entry.tickCount
  {
    if ins.entry.tickCount - ins.tick >= sizes[0] then Far
    else if HandCount(ins.tick, ins.delivering) / sizes[0] < k / sizes[0] then Early
    else Late
  }

  predicate IsDue(sizes: seq<nat>, ins: Insertion, k: nat, part: Part)
    requires |sizes| > 0 && sizes[0] > 0 && ins.tick <= ins.entry.tickCount
  {
    DueTick(sizes, ins) == Some(k) && PartOf(sizes, ins, k) == part
  }

  /** The entries due at tick `k` that get there that way, in the order in which they were accepted. */
  ghost function Chosen(sizes: seq<nat>, log: seq<Insertion>, k: nat, part: Part): TaskList
    requires |sizes| > 0 && sizes[0] > 0 && LogInOrder(log)
  {
    if log == [] then []
    else
      var last := log[|log| - 1];
      Chosen(sizes, log[..|log| - 1], k, part) + if IsDue(sizes, last, k, part) then [last.entry] else []
  }

  /** The list handed out at tick `k`. */
  ghost function InOrder(sizes: seq<nat>, log: seq<Insertion>, k: nat): TaskList
    requires |sizes| > 0 && sizes[0] > 0 && LogInOrder(log)
  {
    Chosen(sizes, log, k, Early) + Chosen(sizes, log, k, Far) + Chosen(sizes, log, k, Late)
  }

  lemma ChosenAppend(sizes: seq<nat>, log: seq<Insertion>, ins: Insertion, k: nat, part: Part)
    requires |sizes| > 0 && sizes[0] > 0 && LogInOrder(log) && ins.tick <= ins.entry.tickCount
    ensures Chosen(sizes, log + [ins], k, part)
      == Chosen(sizes, log, k, part) + if IsDue(sizes, ins, k, part) then [ins.entry] else []
  {
    assert (log + [ins])[..|log|] == log;
  }

  // ---- What is stored -----------------------------------------------------------------------------

  /** The entries of a list that a carry splices into slot `j`, in order. */
  function InSlot(list: TaskList, s0: nat, j: nat): TaskList
    requires s0 > 0
  {
    if list == [] then []
    else
      var last := list[|list| - 1];
      InSlot(list[..|list| - 1], s0, j) + if last.tickCount % s0 == j then [last] else []
  }

  ghost function SlotPart(ws: Wheels, sizes: seq<nat>, h: nat, k: nat): TaskList
    requires ValidSizes(sizes) && Shaped(ws, sizes)
  {
    if h <= k < h + sizes[0] then ws.levels[0].wheel[k % sizes[0]] else []
  }

  ghost function FarPart(ws: Wheels, sizes: seq<nat>, h: nat, k: nat): TaskList
    requires ValidSizes(sizes)
  {
    if |sizes| == 1 && k / sizes[0] > h / sizes[0]
    then InSlot(AtKey(ws.taskMap, k / sizes[0]), sizes[0], k % sizes[0]) else []
  }

  /** The slot of tick `k` holds what was put there, and the map what will be spliced in. */
  ghost predicate HeldInOrder(ws: Wheels, sizes: seq<nat>, h: nat, log: seq<Insertion>, k: nat)
    requires ValidSizes(sizes) && Shaped(ws, sizes) && LogInOrder(log)
  {
    if k / sizes[0] > h / sizes[0]
    then SlotPart(ws, sizes, h, k) == Chosen(sizes, log, k, Early)
         && FarPart(ws, sizes, h, k) == Chosen(sizes, log, k, Far)
    else SlotPart(ws, sizes, h, k) == InOrder(sizes, log, k)
  }

  ghost predicate NoneInFuture(log: seq<Insertion>, h: nat) {
    forall i :: 0 <= i < |log| ==> HandCount(log[i].tick, log[i].delivering) <= h
  }

  ghost predicate OrderInv(ws: Wheels, sizes: seq<nat>, h: nat, log: seq<Insertion>)
    requires ValidSizes(sizes) && Shaped(ws, sizes) && LogInOrder(log)
  {
    && NoneInFuture(log, h)
    && forall k :: k >= h ==> HeldInOrder(ws, sizes, h, log, k)
  }

  /** Before the turn of its slot begins nothing has been put there late. */
  lemma {:induction false} NoneLate(sizes: seq<nat>, log: seq<Insertion>, h: nat, k: nat)
    requires ValidSizes(sizes) && LogInOrder(log) && NoneInFuture(log, h) && k / sizes[0] > h / sizes[0]
    ensures Chosen(sizes, log, k, Late) == []
  {
    if log != [] {
      var last := log[|log| - 1];
      NoneLate(sizes, log[..|log| - 1], h, k);
      QuotientMonotone(HandCount(last.tick, last.delivering), h, sizes[0]);
    }
  }

  /** With several wheels nothing comes out that lay beyond the first. */
  lemma {:induction false} NoneFar(sizes: seq<nat>, log: seq<Insertion>, k: nat)
    requires ValidSizes(sizes) && LogInOrder(log) && |sizes| > 1
    ensures Chosen(sizes, log, k, Far) == []
  {
    if log != [] {
      NoneFar(sizes, log[..|log| - 1], k);
    }
  }

  // ---- One insertion --------------------------------------------------------------------------------

  /** What an insertion adds to a slot, and to the map. */
  lemma DirectPlaced(ws: Wheels, sizes: seq<nat>, ins: Insertion, k: nat)
    requires ValidSizes(sizes) && Shaped(ws, sizes) && WellFormed(ws) && ins.tick <= ins.entry.tickCount
    requires ins.entry.tickCount - ins.tick < sizes[0] && k >= HandCount(ins.tick, ins.delivering)
    ensures var h, ws' := HandCount(ins.tick, ins.delivering), Placed(ws, ins);
      && Shaped(ws', sizes)
      && SlotPart(ws', sizes, h, k)
        == SlotPart(ws, sizes, h, k) + (if DueTick(sizes, ins) == Some(k) then [ins.entry] else [])
      && FarPart(ws', sizes, h, k) == FarPart(ws, sizes, h, k)
  {
    var t, due := ins.entry.tickCount, DueTick(sizes, ins).value;
    QuotientShift(t, sizes[0]);
    assert Placed(ws, ins) == AddToSlot(ws, 0, t % sizes[0], ins.entry);
    if k < HandCount(ins.tick, ins.delivering) + sizes[0] && k % sizes[0] == due % sizes[0] {
      SameRemainder(k, due, sizes[0]);
    }
  }

  lemma InSlotAppend(list: TaskList, x: TaskWithTimestamp, s0: nat, j: nat)
    requires s0 > 0
    ensures InSlot(list + [x], s0, j) == InSlot(list, s0, j) + if x.tickCount % s0 == j then [x] else []
  {
    assert (list + [x])[..|list|] == list;
  }

  lemma AddToMapFar(
    ws: Wheels, sizes: seq<nat>, entry: TaskWithTimestamp, due: nat, h: nat, k: nat)
    requires ValidSizes(sizes) && Shaped(ws, sizes) && |sizes| == 1
    requires due % sizes[0] == entry.tickCount % sizes[0]
    ensures FarPart(AddToMap(ws, due / sizes[0], entry), sizes, h, k)
      == FarPart(ws, sizes, h, k) + (if due / sizes[0] > h / sizes[0] && due == k then [entry] else [])
  {
    InSlotAppend(AtKey(ws.taskMap, k / sizes[0]), entry, sizes[0], k % sizes[0]);
    if k / sizes[0] == due / sizes[0] && k % sizes[0] == due % sizes[0] {
      SameDigits(k, due, sizes[0]);
    }
  }

  lemma FarPlacedOne(ws: Wheels, sizes: seq<nat>, ins: Insertion, k: nat)
    requires ValidSizes(sizes) && Shaped(ws, sizes) && WellFormed(ws) && ins.tick <= ins.entry.tickCount
    requires ins.entry.tickCount - ins.tick >= sizes[0] && |sizes| == 1
    ensures var h, ws' := HandCount(ins.tick, ins.delivering), Placed(ws, ins);
      && Shaped(ws', sizes)
      && SlotPart(ws', sizes, h, k) == SlotPart(ws, sizes, h, k)
      && FarPart(ws', sizes, h, k)
        == FarPart(ws, sizes, h, k) + (if DueTick(sizes, ins) == Some(k) then [ins.entry] else [])
      && (DueTick(sizes, ins) == Some(k) ==> k / sizes[0] > h / sizes[0])
  {
    PlacedFar(ws, sizes, ins);
    AddToMapFar(ws, sizes, ins.entry, FarDue(sizes, ins), HandCount(ins.tick, ins.delivering), k);
  }

  lemma FarPlacedMany(ws: Wheels, sizes: seq<nat>, ins: Insertion, k: nat)
    requires ValidSizes(sizes) && Shaped(ws, sizes) && WellFormed(ws) && ins.tick <= ins.entry.tickCount
    requires ins.entry.tickCount - ins.tick >= sizes[0] && |sizes| > 1
    ensures var h, ws' := HandCount(ins.tick, ins.delivering), Placed(ws, ins);
      && Shaped(ws', sizes) && DueTick(sizes, ins) == None
      && SlotPart(ws', sizes, h, k) == SlotPart(ws, sizes, h, k)
      && FarPart(ws', sizes, h, k) == FarPart(ws, sizes, h, k)
  {
    var s0, d := sizes[0], ins.entry.tickCount - ins.tick;
    assert Placed(ws, ins) == Place(ws, 1, d / s0, ins.tick / s0, ins.entry);
  }

  /** What an insertion adds to the log. */
  lemma LogGrows(sizes: seq<nat>, log: seq<Insertion>, ins: Insertion, k: nat)
    requires ValidSizes(sizes) && LogInOrder(log) && ins.tick <= ins.entry.tickCount
    ensures forall part ::
      Chosen(sizes, log + [ins], k, part)
        == Chosen(sizes, log, k, part) + if IsDue(sizes, ins, k, part) then [ins.entry] else []
  {
    forall part
      ensures Chosen(sizes, log + [ins], k, part)
        == Chosen(sizes, log, k, part) + if IsDue(sizes, ins, k, part) then [ins.entry] else []
    {
      ChosenAppend(sizes, log, ins, k, part);
    }
  }

  /** What an insertion adds, part by part. */
  lemma PlacedParts(ws: Wheels, sizes: seq<nat>, ins: Insertion, k: nat)
    requires ValidSizes(sizes) && Shaped(ws, sizes) && WellFormed(ws) && ins.tick <= ins.entry.tickCount
    requires k >= HandCount(ins.tick, ins.delivering)
    ensures var h, ws' := HandCount(ins.tick, ins.delivering), Placed(ws, ins);
      && Shaped(ws', sizes)
      && SlotPart(ws', sizes, h, k) == SlotPart(ws, sizes, h, k)
        + (if IsDue(sizes, ins, k, Early) || IsDue(sizes, ins, k, Late) then [ins.entry] else [])
      && FarPart(ws', sizes, h, k)
        == FarPart(ws, sizes, h, k) + (if IsDue(sizes, ins, k, Far) then [ins.entry] else [])
      && (IsDue(sizes, ins, k, Early) || IsDue(sizes, ins, k, Far) ==> k / sizes[0] > h / sizes[0])
      && (IsDue(sizes, ins, k, Late) ==> k / sizes[0] <= h / sizes[0])
  {
    if ins.entry.tickCount - ins.tick < sizes[0] {
      DirectPlaced(ws, sizes, ins, k);
    } else if |sizes| == 1 {
      FarPlacedOne(ws, sizes, ins, k);
    } else {
      FarPlacedMany(ws, sizes, ins, k);
    }
  }

  lemma PlacedKeepsOrder(ws: Wheels, sizes: seq<nat>, log: seq<Insertion>, ins: Insertion, k: nat)
    requires ValidSizes(sizes) && Shaped(ws, sizes) && WellFormed(ws) && LogInOrder(log)
    requires ins.tick <= ins.entry.tickCount && k >= HandCount(ins.tick, ins.delivering)
    requires HeldInOrder(ws, sizes, HandCount(ins.tick, ins.delivering), log, k)
    ensures Shaped(Placed(ws, ins), sizes)
    ensures HeldInOrder(Placed(ws, ins), sizes, HandCount(ins.tick, ins.delivering), log + [ins], k)
  {
    PlacedParts(ws, sizes, ins, k);
    ChosenAppend(sizes, log, ins, k, Early);
    ChosenAppend(sizes, log, ins, k, Far);
    ChosenAppend(sizes, log, ins, k, Late);
  }

  // ---- One tick -------------------------------------------------------------------------------------

  lemma InSlotFront(list: TaskList, s0: nat, j: nat)
    requires s0 > 0 && list != []
    ensures InSlot(list, s0, j) == (if list[0].tickCount % s0 == j then [list[0]] else []) + InSlot(list[1..], s0, j)
  {
    var m := |list| - 1;
    if m == 0 {
      assert list[..0] == [] && list[1..] == [];
    } else {
      InSlotFront(list[..m], s0, j);
      assert list[..m][1..] == list[1..][..m - 1];
    }
  }

  /** Splicing appends to every slot the entries of the list that belong there, in their order. */
  lemma {:induction false} DistributeInOrder(wheel: seq<TaskList>, list: TaskList, scale: nat, j: nat)
    requires scale > 0 && Fits(list, scale, 1, |wheel|) && j < |wheel|
    ensures Distribute(wheel, list, scale, 1)[j] == wheel[j] + InSlot(list, scale, j)
    decreases |list|
  {
    if list != [] {
      var i := SlotIndex(list[0].tickCount, scale, 1);
      var wheel' := wheel[i := wheel[i] + [list[0]]];
      DistributeInOrder(wheel', list[1..], scale, j);
      InSlotFront(list, scale, j);
    }
  }

  /** The slots of the first wheel before any carry. */
  lemma AdvanceKeepsSlots(w: Level, h: nat, k: nat)
    requires |w.wheel| > 0 && w.currentPos == h % |w.wheel| && k > h
    ensures var s0 := |w.wheel|;
      (if h + 1 <= k < h + 1 + s0 then Advance(w).wheel[k % s0] else [])
      == (if h <= k < h + s0 then w.wheel[k % s0] else [])
  {
    var s0 := |w.wheel|;
    QuotientShift(h, s0);
    if h < k < h + s0 && k % s0 == h % s0 {
      SameRemainder(k, h, s0);
    }
  }

  /** A tick splices into a slot what the map holds for it, when the turn of the slot begins; otherwise it
      leaves both as they were. */
  lemma TickMovesParts(ws: Wheels, sizes: seq<nat>, h: nat, k: nat)
    requires ValidSizes(sizes) && Shaped(ws, sizes) && WellFormed(ws)
    requires HandsFrom(ws, sizes, 0, h) && Tick(ws, 0).Ticked? && k > h
    ensures var ws', begins := Tick(ws, 0).wheels, h / sizes[0] < k / sizes[0] <= (h + 1) / sizes[0];
      && Shaped(ws', sizes)
      && SlotPart(ws', sizes, h + 1, k)
        == SlotPart(ws, sizes, h, k) + (if begins then FarPart(ws, sizes, h, k) else [])
      && (k / sizes[0] > (h + 1) / sizes[0] ==> FarPart(ws', sizes, h + 1, k) == FarPart(ws, sizes, h, k))
  {
    TickMovesHands(ws, sizes, 0, h);
    AdvanceKeepsSlots(ws.levels[0], h, k);
    StepQuotient(h, sizes[0]);
    if |sizes| == 1 {
      TickMovesPartsOne(ws, sizes, h, k);
    } else {
      TickFirstOfMany(ws);
    }
  }

  lemma TickMovesPartsOne(ws: Wheels, sizes: seq<nat>, h: nat, k: nat)
    requires ValidSizes(sizes) && Shaped(ws, sizes) && WellFormed(ws) && |sizes| == 1
    requires HandsFrom(ws, sizes, 0, h) && Tick(ws, 0).Ticked? && k > h
    requires Shaped(Tick(ws, 0).wheels, sizes)
    ensures var ws', begins := Tick(ws, 0).wheels, h / sizes[0] < k / sizes[0] <= (h + 1) / sizes[0];
      && SlotPart(ws', sizes, h + 1, k)
        == SlotPart(ws, sizes, h, k) + (if begins then FarPart(ws, sizes, h, k) else [])
      && (k / sizes[0] > (h + 1) / sizes[0] ==> FarPart(ws', sizes, h + 1, k) == FarPart(ws, sizes, h, k))
  {
    var s0 := sizes[0];
    var w := Advance(ws.levels[0]);
    AdvanceKeepsSlots(ws.levels[0], h, k);
    StepQuotient(h, s0);
    assert Unit(sizes, 1) == Unit(sizes, 0) * s0 == s0;
    assert ws.taskMapPos == NextHand(h, s0) by { assert HandsFrom(ws, sizes, 1, NextHand(h, s0)); }
    QuotientMonotone(h + 1, k, s0);
    if h % s0 + 1 == s0 {
      BlockIsWindow(k, h + 1, s0);
      var key := ws.taskMapPos;
      if key in ws.taskMap {
        DistributeInOrder(w.wheel, ws.taskMap[key], s0, k % s0);
      }
    }
  }

  lemma TickKeepsOrder(ws: Wheels, sizes: seq<nat>, h: nat, log: seq<Insertion>, k: nat)
    requires ValidSizes(sizes) && Shaped(ws, sizes) && WellFormed(ws) && LogInOrder(log)
    requires HandsFrom(ws, sizes, 0, h) && Tick(ws, 0).Ticked? && k > h
    requires NoneInFuture(log, h) && HeldInOrder(ws, sizes, h, log, k)
    ensures Shaped(Tick(ws, 0).wheels, sizes)
    ensures HeldInOrder(Tick(ws, 0).wheels, sizes, h + 1, log, k)
  {
    TickMovesParts(ws, sizes, h, k);
    QuotientMonotone(h, h + 1, sizes[0]);
    if k / sizes[0] > h / sizes[0] {
      NoneLate(sizes, log, h, k);
    }
  }

  /** The slot under the hand holds the list of its tick. */
  lemma TickTakesInOrder(ws: Wheels, sizes: seq<nat>, h: nat, log: seq<Insertion>)
    requires ValidSizes(sizes) && Shaped(ws, sizes) && WellFormed(ws) && LogInOrder(log)
    requires HandsFrom(ws, sizes, 0, h) && Tick(ws, 0).Ticked? && HeldInOrder(ws, sizes, h, log, h)
    ensures Tick(ws, 0).out == InOrder(sizes, log, h)
  {
  }

  // ---- All runs -------------------------------------------------------------------------------------

  ghost predicate HandedInOrder(handed: seq<TaskList>, sizes: seq<nat>, log: seq<Insertion>)
    requires ValidSizes(sizes) && LogInOrder(log)
  {
    forall k :: 0 <= k < |handed| ==> handed[k] == InOrder(sizes, log, k)
  }

  lemma AcceptKeepsOrder(e: Exec, sizes: seq<nat>, ins: Insertion)
    requires ValidSizes(sizes) && Shaped(e.wheels, sizes) && WellFormed(e.wheels) && LogInOrder(e.accepted)
    requires ins.tick <= ins.entry.tickCount && |e.handed| == HandCount(ins.tick, ins.delivering)
    requires OrderInv(e.wheels, sizes, |e.handed|, e.accepted) && HandedInOrder(e.handed, sizes, e.accepted)
    ensures Shaped(Placed(e.wheels, ins), sizes)
    ensures OrderInv(Placed(e.wheels, ins), sizes, |e.handed|, e.accepted + [ins])
    ensures HandedInOrder(e.handed, sizes, e.accepted + [ins])
  {
    var log' := e.accepted + [ins];
    PlacedKeepsOrder(e.wheels, sizes, e.accepted, ins, |e.handed|);
    forall k | k >= |e.handed|
      ensures HeldInOrder(Placed(e.wheels, ins), sizes, |e.handed|, log', k)
    {
      PlacedKeepsOrder(e.wheels, sizes, e.accepted, ins, k);
    }
    forall k | 0 <= k < |e.handed|
      ensures e.handed[k] == InOrder(sizes, log', k)
    {
      DueNotBefore(sizes, ins);
      LogGrows(sizes, e.accepted, ins, k);
    }
  }

  lemma HandedAppend(handed: seq<TaskList>, list: TaskList, sizes: seq<nat>, log: seq<Insertion>)
    requires ValidSizes(sizes) && LogInOrder(log)
    requires HandedInOrder(handed, sizes, log) && list == InOrder(sizes, log, |handed|)
    ensures HandedInOrder(handed + [list], sizes, log)
  {
  }

  lemma TickKeepsAll(ws: Wheels, sizes: seq<nat>, h: nat, log: seq<Insertion>)
    requires ValidSizes(sizes) && Shaped(ws, sizes) && WellFormed(ws) && LogInOrder(log)
    requires HandsFrom(ws, sizes, 0, h) && Tick(ws, 0).Ticked? && OrderInv(ws, sizes, h, log)
    ensures Shaped(Tick(ws, 0).wheels, sizes)
    ensures OrderInv(Tick(ws, 0).wheels, sizes, h + 1, log)
  {
    var ws', h' := Tick(ws, 0).wheels, h + 1;
    TickKeepsOrder(ws, sizes, h, log, h');
    forall k | k >= h'
      ensures HeldInOrder(ws', sizes, h', log, k)
    {
      TickKeepsOrder(ws, sizes, h, log, k);
    }
  }

  lemma TickKeepsOrderInv(e: Exec, sizes: seq<nat>)
    requires ValidSizes(sizes) && Shaped(e.wheels, sizes) && WellFormed(e.wheels) && LogInOrder(e.accepted)
    requires HandsFrom(e.wheels, sizes, 0, |e.handed|) && Tick(e.wheels, 0).Ticked?
    requires OrderInv(e.wheels, sizes, |e.handed|, e.accepted) && HandedInOrder(e.handed, sizes, e.accepted)
    ensures Shaped(Tick(e.wheels, 0).wheels, sizes)
    ensures OrderInv(Tick(e.wheels, 0).wheels, sizes, |e.handed| + 1, e.accepted)
    ensures HandedInOrder(e.handed + [Tick(e.wheels, 0).out], sizes, e.accepted)
  {
    TickKeepsAll(e.wheels, sizes, |e.handed|, e.accepted);
    TickTakesInOrder(e.wheels, sizes, |e.handed|, e.accepted);
    HandedAppend(e.handed, Tick(e.wheels, 0).out, sizes, e.accepted);
  }

  lemma StepKeepsOrder(cfg: Config, e: Exec, ev: Event)
    requires ValidConfig(cfg) && WellFormed(e.wheels) && |e.wheels.levels| > 0 && Inv(cfg, e)
    requires OrderInv(e.wheels, cfg.sizes, |e.handed|, e.accepted)
    requires HandedInOrder(e.handed, cfg.sizes, e.accepted)
    requires Step(cfg, e, ev).Some? && Inv(cfg, Step(cfg, e, ev).value)
    ensures var e' := Step(cfg, e, ev).value;
      && OrderInv(e'.wheels, cfg.sizes, |e'.handed|, e'.accepted)
      && HandedInOrder(e'.handed, cfg.sizes, e'.accepted)
  {
    match ev
    case ExecuteAt(tp, task) =>
      var v := VirtualTime(cfg.start, tp);
      if v >= e.tick * cfg.dt {
        VirtualTimeTick(v, cfg.dt, e.tick);
        AcceptKeepsOrder(e, cfg.sizes, Insertion(e.tick, e.delivering, TaskWithTimestamp(v / cfg.dt, task)));
      }
    case TimerTick => if !e.delivering { TickKeepsOrderInv(e, cfg.sizes); }
    case TasksFinished =>
  }

  lemma InitialOrder(sizes: seq<nat>)
    requires ValidSizes(sizes)
    ensures Shaped(InitialWheels(sizes), sizes) && OrderInv(InitialWheels(sizes), sizes, 0, [])
  {
    InitialWellFormed(sizes);
    forall k: nat
      ensures HeldInOrder(InitialWheels(sizes), sizes, 0, [], k)
    {
    }
  }

  lemma {:induction false} RunKeepsOrder(cfg: Config, evs: seq<Event>)
    requires ValidConfig(cfg) && Run(cfg, evs).Some?
    ensures Inv(cfg, Run(cfg, evs).value)
    ensures var e := Run(cfg, evs).value;
      && OrderInv(e.wheels, cfg.sizes, |e.handed|, e.accepted)
      && HandedInOrder(e.handed, cfg.sizes, e.accepted)
  {
    RunKeepsInv(cfg, evs);
    if evs == [] {
      InitialOrder(cfg.sizes);
    } else {
      RunKeepsOrder(cfg, evs[..|evs| - 1]);
      StepKeepsOrder(cfg, Run(cfg, evs[..|evs| - 1]).value, evs[|evs| - 1]);
    }
  }

  // ---- Main results ---------------------------------------------------------------------------------

  /** In every run, for any sizes, the list of tick `k` is, in this order: the entries put into its slot
      before the turn of the slot began, those the carry at that moment spliced in from the map, and
      those put there later, each group in the order in which its entries were accepted. */
  lemma HandedOutInOrder(cfg: Config, evs: seq<Event>, k: nat)
    requires ValidConfig(cfg) && Run(cfg, evs).Some? && k < |Run(cfg, evs).value.handed|
    ensures var e := Run(cfg, evs).value;
      LogInOrder(e.accepted) && e.handed[k] == InOrder(cfg.sizes, e.accepted, k)
  {
    RunKeepsOrder(cfg, evs);
  }

  /** All entries due at tick `k`, in the order in which they were accepted. */
  ghost function AllDue(sizes: seq<nat>, log: seq<Insertion>, k: nat): TaskList
    requires |sizes| > 0 && sizes[0] > 0 && LogInOrder(log)
  {
    if log == [] then []
    else
      var last := log[|log| - 1];
      AllDue(sizes, log[..|log| - 1], k) + if DueTick(sizes, last) == Some(k) then [last.entry] else []
  }

  ghost predicate HandsInLog(log: seq<Insertion>) {
    forall i, j :: 0 <= i < j < |log| ==>
      HandCount(log[i].tick, log[i].delivering) <= HandCount(log[j].tick, log[j].delivering)
  }

  lemma {:induction false} RunKeepsHandsInLog(cfg: Config, evs: seq<Event>)
    requires ValidConfig(cfg) && Run(cfg, evs).Some?
    ensures HandsInLog(Run(cfg, evs).value.accepted)
  {
    if evs != [] {
      RunKeepsHandsInLog(cfg, evs[..|evs| - 1]);
      RunKeepsOrder(cfg, evs[..|evs| - 1]);
      StepKeepsHandsInLog(cfg, Run(cfg, evs[..|evs| - 1]).value, evs[|evs| - 1]);
    }
  }

  lemma StepKeepsHandsInLog(cfg: Config, e: Exec, ev: Event)
    requires cfg.dt > 0 && WellFormed(e.wheels) && |e.wheels.levels| > 0 && Step(cfg, e, ev).Some?
    requires HandsInLog(e.accepted) && NoneInFuture(e.accepted, HandCount(e.tick, e.delivering))
    ensures HandsInLog(Step(cfg, e, ev).value.accepted)
  {
  }

  lemma {:induction false} EarlyThenLate(sizes: seq<nat>, log: seq<Insertion>, k: nat)
    requires ValidSizes(sizes) && LogInOrder(log) && HandsInLog(log) && |sizes| > 1
    ensures Chosen(sizes, log, k, Early) + Chosen(sizes, log, k, Late) == AllDue(sizes, log, k)
  {
    if log != [] {
      var before, last := log[..|log| - 1], log[|log| - 1];
      EarlyThenLate(sizes, before, k);
      if IsDue(sizes, last, k, Early) {
        assert NoneInFuture(before, HandCount(last.tick, last.delivering));
        NoneLate(sizes, before, HandCount(last.tick, last.delivering), k);
      }
    }
  }

  lemma InOrderOfMany(sizes: seq<nat>, log: seq<Insertion>, k: nat)
    requires ValidSizes(sizes) && LogInOrder(log) && HandsInLog(log) && |sizes| > 1
    ensures InOrder(sizes, log, k) == AllDue(sizes, log, k)
  {
    NoneFar(sizes, log, k);
    EarlyThenLate(sizes, log, k);
  }

  /** With several wheels, the default, a tick hands out what is due in the order in which it was
      accepted. */
  lemma FirstAcceptedFirstOut(cfg: Config, evs: seq<Event>, k: nat)
    requires ValidConfig(cfg) && Run(cfg, evs).Some? && k < |Run(cfg, evs).value.handed| && |cfg.sizes| > 1
    ensures var e := Run(cfg, evs).value;
      LogInOrder(e.accepted) && e.handed[k] == AllDue(cfg.sizes, e.accepted, k)
  {
    HandedOutInOrder(cfg, evs, k);
    RunKeepsHandsInLog(cfg, evs);
    InOrderOfMany(cfg.sizes, Run(cfg, evs).value.accepted, k);
  }
}
