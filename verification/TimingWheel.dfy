/** The data of the hierarchical timing wheel, and the steps that the shipped cascade and the
    repaired one have in common: taking a slot out and splicing a list into a wheel. */
module TimingWheel {
  import opened Basics
  import opened WheelArithmetic

  datatype TaskWithTimestamp = TaskWithTimestamp(tickCount: nat, task: Task)

  type TaskList = seq<TaskWithTimestamp>

  /** The value of one wheel: its hand, its scale, and its slots. */
  datatype Level = Level(currentPos: nat, scale: nat, wheel: seq<TaskList>)

  /** All wheels, lowest first, and the ordered map behind the last one. */
  datatype Wheels = Wheels(levels: seq<Level>, taskMap: map<nat, TaskList>, taskMapPos: nat)

  function AtKey(m: map<nat, TaskList>, k: nat): TaskList {
    if k in m then m[k] else []
  }

  predicate WellFormed(ws: Wheels) {
    forall i :: 0 <= i < |ws.levels| ==>
      ws.levels[i].currentPos < |ws.levels[i].wheel| && ws.levels[i].scale > 0
  }

  /** `ws` is a cascade of these sizes; nothing a step does changes that. */
  ghost predicate Shaped(ws: Wheels, sizes: seq<nat>) {
    && |ws.levels| == |sizes|
    && forall i :: 0 <= i < |sizes| ==>
      |ws.levels[i].wheel| == sizes[i] && ws.levels[i].scale == Unit(sizes, i + 1)
  }

  /** From level `i` up, every hand stands where it must when level `i`'s is in slot `g`. */
  ghost predicate HandsFrom(ws: Wheels, sizes: seq<nat>, i: nat, g: nat)
    requires i <= |sizes| == |ws.levels| && Positive(sizes)
    decreases |sizes| - i
  {
    if i == |sizes| then ws.taskMapPos == g
    else ws.levels[i].currentPos == g % sizes[i] && HandsFrom(ws, sizes, i + 1, NextHand(g, sizes[i]))
  }

  /** The slot of a wheel a tick falls in when every slot stands for `unit` ticks. */
  function SlotIndex(t: nat, scale: nat, unit: nat): nat
    requires scale > 0 && unit > 0
  {
    (t % scale) / unit
  }

  predicate Fits(list: TaskList, scale: nat, unit: nat, size: nat)
    requires scale > 0 && unit > 0
  {
    forall x :: x in list ==> SlotIndex(x.tickCount, scale, unit) < size
  }

  /** The wheel after splicing the tasks of `list`, front first, into their slots. */
  function Distribute(wheel: seq<TaskList>, list: TaskList, scale: nat, unit: nat): (r: seq<TaskList>)
    requires scale > 0 && unit > 0 && Fits(list, scale, unit, |wheel|)
    ensures |r| == |wheel|
    decreases |list|
  {
    if list == [] then wheel
    else
      var j := SlotIndex(list[0].tickCount, scale, unit);
      Distribute(wheel[j := wheel[j] + [list[0]]], list[1..], scale, unit)
  }

  /** Splicing loses nothing, duplicates nothing, and puts every task in its own slot. */
  lemma {:induction false} DistributeCounts(
    wheel: seq<TaskList>, list: TaskList, scale: nat, unit: nat, j: nat, x: TaskWithTimestamp)
    requires scale > 0 && unit > 0 && Fits(list, scale, unit, |wheel|) && j < |wheel|
    ensures multiset(Distribute(wheel, list, scale, unit)[j])[x]
         == multiset(wheel[j])[x]
          + (if SlotIndex(x.tickCount, scale, unit) == j then multiset(list)[x] else 0)
    decreases |list|
  {
    if list != [] {
      var i := SlotIndex(list[0].tickCount, scale, unit);
      var wheel' := wheel[i := wheel[i] + [list[0]]];
      assert list == [list[0]] + list[1..];
      DistributeCounts(wheel', list[1..], scale, unit, j, x);
      assert multiset(list) == multiset{list[0]} + multiset(list[1..]);
    }
  }

  // ---- Where the hands stand ----------------------------------------------------------

  /** The recursive description of the hands, level by level. */
  lemma {:induction false} HandsAre(ws: Wheels, sizes: seq<nat>, i: nat, h: nat)
    requires i <= |sizes| == |ws.levels| && Positive(sizes)
    requires HandsFrom(ws, sizes, i, Hand(sizes, i, h))
    ensures forall j :: i <= j < |sizes| ==> ws.levels[j].currentPos == Hand(sizes, j, h) % sizes[j]
    ensures ws.taskMapPos == Hand(sizes, |sizes|, h)
    decreases |sizes| - i
  {
    if i < |sizes| {
      HandsAre(ws, sizes, i + 1, h);
    }
  }

  /** Whatever does not touch a level from `i` up leaves the hands from `i` up alone. */
  lemma {:induction false} HandsFrame(ws: Wheels, ws': Wheels, sizes: seq<nat>, i: nat, g: nat)
    requires i <= |sizes| == |ws.levels| == |ws'.levels| && Positive(sizes)
    requires HandsFrom(ws, sizes, i, g)
    requires ws'.taskMapPos == ws.taskMapPos
    requires forall j :: i <= j < |sizes| ==> ws'.levels[j].currentPos == ws.levels[j].currentPos
    ensures HandsFrom(ws', sizes, i, g)
    decreases |sizes| - i
  {
    if i < |sizes| {
      HandsFrame(ws, ws', sizes, i + 1, NextHand(g, sizes[i]));
    }
  }

  // ---- Everything stored --------------------------------------------------------------

  ghost function WheelCount(wheel: seq<TaskList>, x: TaskWithTimestamp): nat {
    if wheel == [] then 0 else multiset(wheel[0])[x] + WheelCount(wheel[1..], x)
  }

  ghost function LevelsCount(levels: seq<Level>, x: TaskWithTimestamp): nat {
    if levels == [] then 0 else WheelCount(levels[0].wheel, x) + LevelsCount(levels[1..], x)
  }

  ghost function MapCount(m: map<nat, TaskList>, x: TaskWithTimestamp): nat {
    if m == map[] then 0
    else
      var k :| k in m;
      multiset(m[k])[x] + MapCount(m - {k}, x)
  }

  /** How many copies of `x` are stored anywhere. */
  ghost function StoredCount(ws: Wheels, x: TaskWithTimestamp): nat {
    LevelsCount(ws.levels, x) + MapCount(ws.taskMap, x)
  }

  lemma {:induction false} EmptyWheelCount(size: nat, x: TaskWithTimestamp)
    ensures WheelCount(seq(size, _ => []), x) == 0
  {
    if size > 0 {
      assert seq<TaskList>(size, _ => [])[1..] == seq(size - 1, _ => []);
      EmptyWheelCount(size - 1, x);
    }
  }

  lemma {:induction false} WheelCountUpdate(wheel: seq<TaskList>, j: nat, list: TaskList, x: TaskWithTimestamp)
    requires j < |wheel|
    ensures WheelCount(wheel[j := list], x) + multiset(wheel[j])[x]
         == WheelCount(wheel, x) + multiset(list)[x]
  {
    if j > 0 {
      assert wheel[j := list][1..] == wheel[1..][j - 1 := list];
      WheelCountUpdate(wheel[1..], j - 1, list, x);
    } else {
      assert wheel[j := list][1..] == wheel[1..];
    }
  }

  lemma {:induction false} LevelsCountUpdate(levels: seq<Level>, i: nat, w: Level, x: TaskWithTimestamp)
    requires i < |levels|
    ensures LevelsCount(levels[i := w], x) + WheelCount(levels[i].wheel, x)
         == LevelsCount(levels, x) + WheelCount(w.wheel, x)
  {
    if i > 0 {
      assert levels[i := w][1..] == levels[1..][i - 1 := w];
      LevelsCountUpdate(levels[1..], i - 1, w, x);
    } else {
      assert levels[i := w][1..] == levels[1..];
    }
  }

  /** The sum over a map does not depend on the order in which its keys are visited. */
  lemma {:induction false} MapCountWithout(m: map<nat, TaskList>, k: nat, x: TaskWithTimestamp)
    requires k in m
    ensures MapCount(m, x) == multiset(m[k])[x] + MapCount(m - {k}, x)
    decreases |m|
  {
    var c :| c in m && MapCount(m, x) == multiset(m[c])[x] + MapCount(m - {c}, x);
    if c != k {
      MapCountWithout(m - {c}, k, x);
      MapCountWithout(m - {k}, c, x);
      assert m - {c} - {k} == m - {k} - {c};
    }
  }

  lemma MapCountAdd(m: map<nat, TaskList>, k: nat, e: TaskWithTimestamp, x: TaskWithTimestamp)
    ensures MapCount(m[k := AtKey(m, k) + [e]], x) == MapCount(m, x) + (if e == x then 1 else 0)
  {
    var m' := m[k := AtKey(m, k) + [e]];
    MapCountWithout(m', k, x);
    assert m' - {k} == m - {k};
    if k in m {
      MapCountWithout(m, k, x);
    } else {
      assert m - {k} == m;
    }
  }

  lemma {:induction false} DistributeTotal(
    wheel: seq<TaskList>, list: TaskList, scale: nat, unit: nat, x: TaskWithTimestamp)
    requires scale > 0 && unit > 0 && Fits(list, scale, unit, |wheel|)
    ensures WheelCount(Distribute(wheel, list, scale, unit), x)
         == WheelCount(wheel, x) + multiset(list)[x]
    decreases |list|
  {
    if list != [] {
      var j := SlotIndex(list[0].tickCount, scale, unit);
      WheelCountUpdate(wheel, j, wheel[j] + [list[0]], x);
      DistributeTotal(wheel[j := wheel[j] + [list[0]]], list[1..], scale, unit, x);
      assert list == [list[0]] + list[1..];
      assert multiset(list) == multiset{list[0]} + multiset(list[1..]);
    }
  }
}
