/** `BlockQueue` as a monitor: every method body is one critical section, except that a `Dequeue`
    with nothing to take sleeps on the condition variable and runs its section again when it
    is woken. Any number of threads may enqueue; the threads that dequeue are numbered. */
module BlockQueues {
  import opened Basics

  /** Where a dequeuing thread is: not waiting, asleep, or woken, by a notification or for no
      reason, and about to take the lock again. */
  datatype Waiter = Away | Asleep | Notified | Spurious

  /** `enqueued` and `dequeued` record what was put in and taken out, in order. */
  datatype Monitor<T> = Monitor(
    queue: seq<T>, running: bool, waiters: seq<Waiter>, enqueued: seq<T>, dequeued: seq<T>)

  /** What one section of `Dequeue` comes to: the item, the exception, or sleep. */
  datatype DequeueResult<+T> = Item(value: T) | Stopped | Sleeps

  /** `pick` is the sleeper that the notification of an `Enqueue` reaches, if it is one. */
  datatype Event<T> =
    | Enqueue(item: T, pick: nat)
    | Dequeue(c: nat)
    | Resume(c: nat)
    | SpuriousWake(c: nat)
    | TryDequeue
    | Stop

  // ---- The sections -----------------------------------------------------------------------

  /** `notify_one`: one sleeper is woken if there is any. */
  function NotifyOne(ws: seq<Waiter>, pick: nat): (r: seq<Waiter>)
    ensures |r| == |ws|
    ensures forall c :: 0 <= c < |ws| && ws[c] != Asleep ==> r[c] == ws[c]
  {
    if pick < |ws| && ws[pick] == Asleep then ws[pick := Notified] else NotifyFirst(ws)
  }

  function NotifyFirst(ws: seq<Waiter>): (r: seq<Waiter>)
    ensures |r| == |ws|
    ensures forall c :: 0 <= c < |ws| && ws[c] != Asleep ==> r[c] == ws[c]
  {
    if ws == [] then []
    else if ws[0] == Asleep then ws[0 := Notified]
    else [ws[0]] + NotifyFirst(ws[1..])
  }

  function NotifyAll(ws: seq<Waiter>): (r: seq<Waiter>)
    ensures |r| == |ws|
  {
    seq(|ws|, i requires 0 <= i < |ws| => if ws[i] == Asleep then Notified else ws[i])
  }

  function EnqueueSection<T>(m: Monitor<T>, item: T, pick: nat): Monitor<T> {
    if !m.running then m
    else m.(queue := m.queue + [item], enqueued := m.enqueued + [item],
            waiters := NotifyOne(m.waiters, pick))
  }

  function DequeueSection<T>(m: Monitor<T>, c: nat): (Monitor<T>, DequeueResult<T>)
    requires c < |m.waiters|
  {
    if m.queue == [] && m.running then (m.(waiters := m.waiters[c := Asleep]), Sleeps)
    else if !m.running then (m.(waiters := m.waiters[c := Away]), Stopped)
    else (m.(queue := m.queue[1..], dequeued := m.dequeued + [m.queue[0]], waiters := m.waiters[c := Away]),
          Item(m.queue[0]))
  }

  function TryDequeueSection<T>(m: Monitor<T>): (Monitor<T>, Option<T>) {
    if m.queue == [] || !m.running then (m, None)
    else (m.(queue := m.queue[1..], dequeued := m.dequeued + [m.queue[0]]), Some(m.queue[0]))
  }

  function StopSection<T>(m: Monitor<T>): Monitor<T> {
    m.(running := false, waiters := NotifyAll(m.waiters))
  }

  /** An event of a thread that is not where the event needs it does nothing. */
  function Step<T>(m: Monitor<T>, ev: Event<T>): Monitor<T> {
    match ev
    case Enqueue(item, pick) => EnqueueSection(m, item, pick)
    case Dequeue(c) =>
      if c < |m.waiters| && m.waiters[c] == Away then DequeueSection(m, c).0 else m
    case Resume(c) =>
      if c < |m.waiters| && m.waiters[c] in {Notified, Spurious} then DequeueSection(m, c).0 else m
    case SpuriousWake(c) =>
      if c < |m.waiters| && m.waiters[c] == Asleep then m.(waiters := m.waiters[c := Spurious]) else m
    case TryDequeue => TryDequeueSection(m).0
    case Stop => StopSection(m)
  }

  ghost function Run<T>(n: nat, evs: seq<Event<T>>): Monitor<T> {
    if evs == [] then Monitor([], true, seq(n, _ => Away), [], [])
    else Step(Run(n, evs[..|evs| - 1]), evs[|evs| - 1])
  }

  // ---- The monitor in place -------------------------------------------------------------------

  class BlockQueue<T> {
    var queue: seq<T>
    var runningFlag: bool
    var cond: seq<Waiter>
    ghost var enqueued: seq<T>
    ghost var dequeued: seq<T>

    ghost function View(): Monitor<T>
      reads this
    {
      Monitor(queue, runningFlag, cond, enqueued, dequeued)
    }

    constructor (n: nat)
      ensures View() == Run(n, [])
    {
      queue, runningFlag, cond := [], true, seq(n, _ => Away);
      enqueued, dequeued := [], [];
    }

    /** `Enqueue`; `false` stands for `BlockQueueStoppedException`. */
    method Enqueue(item: T, pick: nat) returns (ok: bool)
      modifies this
      ensures ok <==> old(runningFlag)
      ensures queue == old(queue) + (if ok then [item] else []) && dequeued == old(dequeued)
      ensures View() == EnqueueSection(old(View()), item, pick)
    {
      if !runningFlag {
        return false;
      }
      queue, enqueued := queue + [item], enqueued + [item];
      cond := NotifyOne(cond, pick);
      return true;
    }

    /** One run of the section of `Dequeue`, by a fresh caller or by one that was woken. */
    method DequeueOrSleep(c: nat) returns (r: DequeueResult<T>)
      requires c < |cond| && cond[c] != Asleep
      modifies this
      ensures (View(), r) == DequeueSection(old(View()), c)
      ensures r.Sleeps? <==> old(queue) == [] && old(runningFlag)
      ensures r.Stopped? <==> !old(runningFlag)
      ensures dequeued == old(dequeued) + (if r.Item? then [r.value] else [])
      ensures old(queue) == (if r.Item? then [r.value] else []) + queue
    {
      if !(queue != [] || !runningFlag) {
        cond := cond[c := Asleep];
        return Sleeps;
      }
      cond := cond[c := Away];
      if !runningFlag {
        return Stopped;
      }
      r := Item(queue[0]);
      dequeued := dequeued + [queue[0]];
      queue := queue[1..];
    }

    method TryDequeue() returns (r: Option<T>)
      modifies this
      ensures (View(), r) == TryDequeueSection(old(View()))
      ensures r.None? <==> old(queue) == [] || !old(runningFlag)
      ensures dequeued == old(dequeued) + (if r.Some? then [r.value] else [])
      ensures old(queue) == (if r.Some? then [r.value] else []) + queue
    {
      if queue == [] || !runningFlag {
        return None;
      }
      r := Some(queue[0]);
      dequeued := dequeued + [queue[0]];
      queue := queue[1..];
    }

    method Stop()
      modifies this
      ensures !runningFlag && queue == old(queue)
      ensures View() == StopSection(old(View()))
    {
      runningFlag := false;
      cond := NotifyAll(cond);
    }

    method Size() returns (n: nat)
      ensures n == |queue|
    {
      n := |queue|;
    }
  }

  // ---- Counting waiters ------------------------------------------------------------------------

  function Count(ws: seq<Waiter>, kind: Waiter): nat {
    if ws == [] then 0 else (if ws[0] == kind then 1 else 0) + Count(ws[1..], kind)
  }

  lemma {:induction false} CountUpdate(ws: seq<Waiter>, c: nat, w: Waiter, kind: Waiter)
    requires c < |ws|
    ensures Count(ws[c := w], kind) + (if ws[c] == kind then 1 else 0)
         == Count(ws, kind) + (if w == kind then 1 else 0)
  {
    if c == 0 {
      assert ws[c := w][1..] == ws[1..];
    } else {
      assert ws[c := w][1..] == ws[1..][c - 1 := w];
      CountUpdate(ws[1..], c - 1, w, kind);
    }
  }

  lemma {:induction false} CountZero(ws: seq<Waiter>, kind: Waiter)
    ensures Count(ws, kind) == 0 <==> forall c :: 0 <= c < |ws| ==> ws[c] != kind
  {
    if ws != [] {
      CountZero(ws[1..], kind);
      assert forall c :: 1 <= c < |ws| ==> ws[c] == ws[1..][c - 1];
      assert forall c :: 0 <= c < |ws| - 1 ==> ws[1..][c] == ws[c + 1];
    }
  }

  /** A notification turns exactly one sleeper, if there is any, into a notified waiter. */
  lemma {:induction false} NotifyFirstCounts(ws: seq<Waiter>)
    ensures var k := if Count(ws, Asleep) > 0 then 1 else 0;
      && Count(NotifyFirst(ws), Asleep) == Count(ws, Asleep) - k
      && Count(NotifyFirst(ws), Notified) == Count(ws, Notified) + k
  {
    if ws != [] {
      if ws[0] == Asleep {
        CountUpdate(ws, 0, Notified, Asleep);
        CountUpdate(ws, 0, Notified, Notified);
      } else {
        NotifyFirstCounts(ws[1..]);
        assert ([ws[0]] + NotifyFirst(ws[1..]))[1..] == NotifyFirst(ws[1..]);
      }
    }
  }

  lemma NotifyOneCounts(ws: seq<Waiter>, pick: nat)
    ensures var k := if Count(ws, Asleep) > 0 then 1 else 0;
      && Count(NotifyOne(ws, pick), Asleep) == Count(ws, Asleep) - k
      && Count(NotifyOne(ws, pick), Notified) == Count(ws, Notified) + k
  {
    if pick < |ws| && ws[pick] == Asleep {
      CountUpdate(ws, pick, Notified, Asleep);
      CountUpdate(ws, pick, Notified, Notified);
    } else {
      NotifyFirstCounts(ws);
    }
  }

  // ---- Main results ------------------------------------------------------------------------------

  ghost predicate Inv<T>(m: Monitor<T>) {
    && (Count(m.waiters, Asleep) > 0 ==> m.running && |m.queue| <= Count(m.waiters, Notified))
    && m.dequeued + m.queue == m.enqueued
  }

  lemma DequeueKeepsInv<T>(m: Monitor<T>, c: nat)
    requires Inv(m) && c < |m.waiters| && m.waiters[c] != Asleep
    ensures Inv(DequeueSection(m, c).0)
  {
    var m' := DequeueSection(m, c).0;
    CountUpdate(m.waiters, c, m'.waiters[c], Asleep);
    CountUpdate(m.waiters, c, m'.waiters[c], Notified);
    if m.queue != [] {
      assert [m.queue[0]] + m.queue[1..] == m.queue;
    }
  }

  lemma StepKeepsInv<T>(m: Monitor<T>, ev: Event<T>)
    requires Inv(m)
    ensures Inv(Step(m, ev)) && |Step(m, ev).waiters| == |m.waiters|
  {
    match ev
    case Enqueue(item, pick) =>
      NotifyOneCounts(m.waiters, pick);
      assert m.dequeued + (m.queue + [item]) == m.dequeued + m.queue + [item];
    case Dequeue(c) => if c < |m.waiters| && m.waiters[c] == Away { DequeueKeepsInv(m, c); }
    case Resume(c) => if c < |m.waiters| && m.waiters[c] != Asleep { DequeueKeepsInv(m, c); }
    case SpuriousWake(c) =>
      if c < |m.waiters| && m.waiters[c] == Asleep {
        CountUpdate(m.waiters, c, Spurious, Asleep);
        CountUpdate(m.waiters, c, Spurious, Notified);
      }
    case TryDequeue =>
      if m.queue != [] {
        assert [m.queue[0]] + m.queue[1..] == m.queue;
      }
    case Stop => CountZero(NotifyAll(m.waiters), Asleep);
  }

  lemma {:induction false} RunKeepsInv<T>(n: nat, evs: seq<Event<T>>)
    ensures Inv(Run(n, evs)) && |Run(n, evs).waiters| == n
  {
    if evs == [] {
      CountZero(Run<T>(n, []).waiters, Asleep);
    } else {
      RunKeepsInv(n, evs[..|evs| - 1]);
      StepKeepsInv(Run(n, evs[..|evs| - 1]), evs[|evs| - 1]);
    }
  }

  /** No consumer is stranded. Whatever fresh callers take and whoever wakes for no reason: while
      some thread sleeps un-notified, there is a notified one on its way for every item in the
      queue, and the next of these to run takes an item; once stopped, nobody sleeps. */
  lemma NoConsumerStranded<T>(n: nat, evs: seq<Event<T>>, sleeper: nat)
    requires sleeper < n == |Run(n, evs).waiters| && Run(n, evs).waiters[sleeper] == Asleep
    ensures var m := Run(n, evs);
      && m.running && |m.queue| <= Count(m.waiters, Notified)
      && (m.queue != [] ==>
            exists c :: 0 <= c < n && m.waiters[c] == Notified && DequeueSection(m, c).1 == Item(m.queue[0]))
  {
    RunKeepsInv(n, evs);
    var m := Run(n, evs);
    CountZero(m.waiters, Asleep);
    CountZero(m.waiters, Notified);
    if m.queue != [] {
      var c :| 0 <= c < n && m.waiters[c] == Notified;
      assert DequeueSection(m, c).1 == Item(m.queue[0]);
    }
  }

  /** Linearizable first-in-first-out: under any interleaving, what was taken followed by what is
      still queued is what was put in, in order. */
  lemma FirstInFirstOut<T>(n: nat, evs: seq<Event<T>>)
    ensures Run(n, evs).dequeued + Run(n, evs).queue == Run(n, evs).enqueued
  {
    RunKeepsInv(n, evs);
  }

  lemma StoppedStep<T>(m: Monitor<T>, ev: Event<T>)
    requires !m.running && Count(m.waiters, Asleep) == 0
    ensures var m' := Step(m, ev);
      && !m'.running && Count(m'.waiters, Asleep) == 0
      && m'.queue == m.queue && m'.enqueued == m.enqueued && m'.dequeued == m.dequeued
  {
    var m' := Step(m, ev);
    match ev
    case Dequeue(c) => if c < |m.waiters| { CountUpdate(m.waiters, c, Away, Asleep); }
    case Resume(c) => if c < |m.waiters| { CountUpdate(m.waiters, c, Away, Asleep); }
    case SpuriousWake(c) => CountZero(m.waiters, Asleep);
    case Stop =>
      CountZero(m.waiters, Asleep);
      CountZero(m'.waiters, Asleep);
    case Enqueue(_, _) =>
    case TryDequeue =>
  }

  lemma {:induction false} StoppedForGood<T>(n: nat, evs: seq<Event<T>>)
    requires Stop in evs
    ensures !Run(n, evs).running && Count(Run(n, evs).waiters, Asleep) == 0
  {
    var before, last := evs[..|evs| - 1], evs[|evs| - 1];
    if last == Stop {
      CountZero(Run(n, evs).waiters, Asleep);
    } else {
      assert evs == before + [last];
      StoppedForGood(n, before);
      StoppedStep(Run(n, before), last);
    }
  }

  /** After a `Stop`, whatever follows, the queue stays stopped and as it was, nothing more is put
      in or taken out, and no thread sleeps. */
  lemma {:induction false} FrozenAfterStop<T>(n: nat, evs: seq<Event<T>>, more: seq<Event<T>>)
    requires Stop in evs
    ensures var m, m' := Run(n, evs), Run(n, evs + more);
      && !m.running && !m'.running
      && m'.queue == m.queue && m'.enqueued == m.enqueued && m'.dequeued == m.dequeued
      && Count(m'.waiters, Asleep) == 0
  {
    StoppedForGood(n, evs);
    if more == [] {
      assert evs + more == evs;
    } else {
      var rest := more[..|more| - 1];
      assert (evs + more)[..|evs + more| - 1] == evs + rest;
      FrozenAfterStop(n, evs, rest);
      StoppedStep(Run(n, evs + rest), more[|more| - 1]);
    }
  }

  // ---- What the calls come to -------------------------------------------------------------------------

  /** The items of the calls of `Enqueue` before the first `Stop`. */
  ghost function Offered<T>(evs: seq<Event<T>>): seq<T> {
    if evs == [] then []
    else
      var before, last := evs[..|evs| - 1], evs[|evs| - 1];
      Offered(before) + if last.Enqueue? && Stop !in before then [last.item] else []
  }

  lemma {:induction false} RunningExactly<T>(n: nat, evs: seq<Event<T>>)
    ensures Run(n, evs).running <==> Stop !in evs
  {
    if evs != [] {
      RunningExactly(n, evs[..|evs| - 1]);
      assert evs == evs[..|evs| - 1] + [evs[|evs| - 1]];
    }
  }

  lemma {:induction false} EnqueuedIsOffered<T>(n: nat, evs: seq<Event<T>>)
    ensures Run(n, evs).enqueued == Offered(evs)
  {
    if evs != [] {
      EnqueuedIsOffered(n, evs[..|evs| - 1]);
      RunningExactly(n, evs[..|evs| - 1]);
    }
  }

  lemma SplitAt<T>(a: seq<T>, b: seq<T>)
    ensures |a| <= |a + b| && (a + b)[..|a|] == a && (a + b)[|a|..] == b
  {
  }

  /** In every interleaving the items put in are exactly those offered before the first `Stop`, in order;
      so what has been taken out are the first of these, and the queue holds the others. */
  lemma TakenFromOffered<T>(n: nat, evs: seq<Event<T>>)
    ensures var m := Run(n, evs);
      && m.enqueued == Offered(evs)
      && |m.dequeued| <= |Offered(evs)|
      && m.dequeued == Offered(evs)[..|m.dequeued|] && m.queue == Offered(evs)[|m.dequeued|..]
  {
    RunKeepsInv(n, evs);
    EnqueuedIsOffered(n, evs);
    SplitAt(Run(n, evs).dequeued, Run(n, evs).queue);
  }

  lemma RunAppend<T>(n: nat, evs: seq<Event<T>>, ev: Event<T>)
    ensures Run(n, evs + [ev]) == Step(Run(n, evs), ev)
  {
    assert (evs + [ev])[..|evs|] == evs;
  }

  /** The next item to be taken, in every interleaving: none once stopped. */
  ghost function NextItem<T>(n: nat, evs: seq<Event<T>>): seq<T> {
    var k := |Run(n, evs).dequeued|;
    if Stop !in evs && k < |Offered(evs)| then [Offered(evs)[k]] else []
  }

  /** A call of `TryDequeue` takes the next item if there is one, and nothing otherwise. */
  lemma TryDequeueTakesNext<T>(n: nat, evs: seq<Event<T>>)
    ensures Run(n, evs + [TryDequeue]).dequeued == Run(n, evs).dequeued + NextItem(n, evs)
    ensures TryDequeueSection(Run(n, evs)).1
      == if NextItem(n, evs) == [] then None else Some(NextItem(n, evs)[0])
  {
    RunAppend(n, evs, TryDequeue);
    TakenFromOffered(n, evs);
    RunningExactly(n, evs);
  }

  /** A thread that enters `Dequeue`, or runs on after it was woken, takes the next item if there is one,
      sleeps if there is none and the queue runs, and leaves with the exception once it is stopped. */
  lemma DequeueTakesNext<T>(n: nat, evs: seq<Event<T>>, c: nat)
    requires c < n == |Run(n, evs).waiters| && Run(n, evs).waiters[c] != Asleep
    ensures var m := Run(n, evs);
      var m' := Run(n, evs + [if m.waiters[c] == Away then Dequeue(c) else Resume(c)]);
      && m'.dequeued == m.dequeued + NextItem(n, evs) && m'.enqueued == m.enqueued
      && |m'.waiters| == n
      && m'.waiters[c] == (if NextItem(n, evs) == [] && Stop !in evs then Asleep else Away)
      && (forall d :: 0 <= d < n && d != c ==> m'.waiters[d] == m.waiters[d])
      && DequeueSection(m, c).1
        == if Stop in evs then Stopped else if NextItem(n, evs) == [] then Sleeps else Item(NextItem(n, evs)[0])
  {
    var m := Run(n, evs);
    RunAppend(n, evs, if m.waiters[c] == Away then Dequeue(c) else Resume(c));
    TakenFromOffered(n, evs);
    RunningExactly(n, evs);
  }

  /** Thread `c` is in a call of `Dequeue` that has not returned. */
  ghost function InCall<T>(n: nat, evs: seq<Event<T>>, c: nat): bool {
    if evs == [] then false
    else
      var before, last := evs[..|evs| - 1], evs[|evs| - 1];
      var m := Run(n, before);
      if c < |m.waiters| && m.waiters[c] != Asleep && ((last == Dequeue(c) && !InCall(n, before, c))
                                                      || (last == Resume(c) && InCall(n, before, c)))
      then DequeueSection(m, c).1 == Sleeps
      else InCall(n, before, c)
  }

  lemma StepKeepsWaiters<T>(m: Monitor<T>, ev: Event<T>, c: nat)
    requires c < |m.waiters|
    ensures var m' := Step(m, ev);
      && |m'.waiters| == |m.waiters|
      && (m'.waiters[c] != Away <==>
            if m.waiters[c] == Away then ev == Dequeue(c) && DequeueSection(m, c).1 == Sleeps
            else !(m.waiters[c] != Asleep && ev == Resume(c) && DequeueSection(m, c).1 != Sleeps))
  {
    match ev
    case Enqueue(item, pick) => NotifyKeepsInside(m.waiters, pick, c);
    case Dequeue(_) =>
    case Resume(_) =>
    case SpuriousWake(_) =>
    case TryDequeue =>
    case Stop =>
  }

  lemma {:induction false} NotifyFirstKeepsInside(ws: seq<Waiter>, c: nat)
    requires c < |ws|
    ensures ws[c] == Asleep ==> NotifyFirst(ws)[c] in {Asleep, Notified}
  {
    if ws[0] != Asleep && c > 0 {
      NotifyFirstKeepsInside(ws[1..], c - 1);
    }
  }

  lemma NotifyKeepsInside(ws: seq<Waiter>, pick: nat, c: nat)
    requires c < |ws|
    ensures NotifyOne(ws, pick)[c] == Away <==> ws[c] == Away
  {
    NotifyFirstKeepsInside(ws, c);
  }

  /** In every interleaving a thread is waiting, asleep or woken, exactly while it is in a call of
      `Dequeue` that has not returned: no notification and no `Stop` ever loses a thread. */
  lemma {:induction false} NoThreadLost<T>(n: nat, evs: seq<Event<T>>, c: nat)
    requires c < n
    ensures |Run(n, evs).waiters| == n
    ensures Run(n, evs).waiters[c] != Away <==> InCall(n, evs, c)
  {
    if evs != [] {
      var before := evs[..|evs| - 1];
      NoThreadLost(n, before, c);
      StepKeepsWaiters(Run(n, before), evs[|evs| - 1], c);
    }
  }

  /** After a `Stop` every thread that was in `Dequeue` is awake, and leaves with the exception when it
      runs on. */
  lemma StopReleasesAll<T>(n: nat, evs: seq<Event<T>>, c: nat)
    requires c < n && Stop in evs && InCall(n, evs, c)
    ensures |Run(n, evs).waiters| == n && Run(n, evs).waiters[c] in {Notified, Spurious}
    ensures DequeueSection(Run(n, evs), c).1 == Stopped && !InCall(n, evs + [Resume(c)], c)
  {
    NoThreadLost(n, evs, c);
    StoppedForGood(n, evs);
    CountZero(Run(n, evs).waiters, Asleep);
    assert (evs + [Resume(c)])[..|evs|] == evs;
  }

  /** `Stop` notifies every sleeper. */
  lemma StopNotifies<T>(n: nat, evs: seq<Event<T>>, c: nat)
    requires c < n == |Run(n, evs).waiters|
    ensures |Run(n, evs + [Stop]).waiters| == n
    ensures Run(n, evs).waiters[c] == Asleep ==> Run(n, evs + [Stop]).waiters[c] == Notified
    ensures Run(n, evs).waiters[c] != Asleep ==> Run(n, evs + [Stop]).waiters[c] == Run(n, evs).waiters[c]
  {
    RunAppend(n, evs, Stop);
  }

  /** A sleeper that wakes for no reason, finding nothing, goes back to sleep, and nothing has changed. */
  lemma SpuriousWakeUpIsHarmless<T>(n: nat, evs: seq<Event<T>>, c: nat)
    requires c < n == |Run(n, evs).waiters| && Run(n, evs).waiters[c] == Asleep
    ensures var woken := Run(n, evs + [SpuriousWake(c)]);
      && |woken.waiters| == n && woken.waiters[c] == Spurious
      && (NextItem(n, evs) == [] ==> Run(n, evs + [SpuriousWake(c)] + [Resume(c)]) == Run(n, evs))
  {
    RunAppend(n, evs, SpuriousWake(c));
    RunAppend(n, evs + [SpuriousWake(c)], Resume(c));
    TakenFromOffered(n, evs);
    NoConsumerStranded(n, evs, c);
    RunningExactly(n, evs);
  }
}
