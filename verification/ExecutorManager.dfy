/** `ExecutorManager`: which configurations it accepts, what it registers, and what its
    `Shutdown` visits, including runs in which a call throws part-way. */
module ExecutorManagers {
  import opened Basics

  datatype State = PreInit | Init | Start | Shutdown

  datatype ExecutorOptions = ExecutorOptions(name: string, kind: string)

  datatype Error =
    | OnlyOnce | MainNotFirst | GuardMisplaced | DuplicateName(name: string) | InvalidType(kind: string)
    | NotInit | Missing(name: string) | InExecutor(name: string)

  /** `Terminates`: the process ends, in `std::terminate`. */
  datatype Outcome = Ok | Throws(error: Error) | Terminates

  /** The value of a manager: its state, the registered names in order, the keys of its map. `started`
      records the executors whose `Start` has returned and `visited` those whose `Shutdown` it has
      called, in order. */
  datatype Manager = Manager(
    state: State, used: seq<string>, keys: set<string>, started: seq<string>, visited: seq<string>)

  const FRESH := Manager(PreInit, [], {}, [], [])

  predicate IsMain(o: ExecutorOptions) { o.kind == "main_thread" }

  predicate IsGuard(o: ExecutorOptions) { o.kind == "guard_thread" }

  predicate IsWheel(o: ExecutorOptions) { o.kind == "time_wheel" }

  // ---- The calls as functions ---------------------------------------------------------------

  /** The first pass, from entry `i` on. */
  function CheckFrom(options: seq<ExecutorOptions>, i: nat): (r: Outcome)
    requires i <= |options|
    ensures r != Terminates
    decreases |options| - i
  {
    if i == |options| then Ok
    else if IsMain(options[i]) && i != 0 then Throws(MainNotFirst)
    else if IsGuard(options[i]) && !(i == 0 || (i == 1 && IsMain(options[0]))) then Throws(GuardMisplaced)
    else CheckFrom(options, i + 1)
  }

  /** The names the first pass settles on, where it accepts. */
  function MainName(options: seq<ExecutorOptions>): string {
    if |options| > 0 && IsMain(options[0]) then options[0].name else "nxpilot_main"
  }

  function GuardName(options: seq<ExecutorOptions>): string {
    if |options| > 0 && IsGuard(options[0]) then options[0].name
    else if |options| > 1 && IsGuard(options[1]) then options[1].name
    else "nxpilot_guard"
  }

  /** The name is appended; the map keeps the entry it has, if it has one. */
  function Register(m: Manager, name: string): Manager {
    m.(used := m.used + [name], keys := m.keys + {name})
  }

  /** The second pass, from entry `i` on. `fails(k)` says whether the `Initialize` of the
      `k`-th executor to be registered throws. */
  function RegisterFrom(m: Manager, options: seq<ExecutorOptions>, i: nat, fails: nat -> bool): (r: (Manager, Outcome))
    requires i <= |options|
    ensures r.1 != Terminates
    decreases |options| - i
  {
    if i == |options| then (m, Ok)
    else
      var o := options[i];
      if IsMain(o) || IsGuard(o) then RegisterFrom(m, options, i + 1, fails)
      else if o.name in m.keys then (m, Throws(DuplicateName(o.name)))
      else if !IsWheel(o) then (m, Throws(InvalidType(o.kind)))
      else if fails(|m.used|) then (m, Throws(InExecutor(o.name)))
      else RegisterFrom(Register(m, o.name), options, i + 1, fails)
  }

  /** A guard executor under a name in use is dropped from the map at once, and destroyed while the
      thread its `Initialize` has started still runs. */
  function Initialize(m: Manager, options: seq<ExecutorOptions>, fails: nat -> bool): (Manager, Outcome) {
    var m0 := m.(state := Init);
    if m.state != PreInit then (m0, Throws(OnlyOnce))
    else if CheckFrom(options, 0).Throws? then (m0, CheckFrom(options, 0))
    else if fails(|m0.used|) then (m0, Throws(InExecutor(MainName(options))))
    else
      var m1 := Register(m0, MainName(options));
      if fails(|m1.used|) then (m1, Throws(InExecutor(GuardName(options))))
      else if GuardName(options) in m1.keys then (Register(m1, GuardName(options)), Terminates)
      else RegisterFrom(Register(m1, GuardName(options)), options, 0, fails)
  }

  /** `Start` of the executors from the `i`-th on; `fails(k)` says whether the `k`-th throws. */
  function StartFrom(m: Manager, i: nat, fails: nat -> bool): (r: (Manager, Outcome))
    requires i <= |m.used|
    ensures r.1 != Terminates
    decreases |m.used| - i
  {
    if i == |m.used| then (m, Ok)
    else
      var name := m.used[i];
      if name !in m.keys then (m, Throws(Missing(name)))
      else if fails(i) then (m, Throws(InExecutor(name)))
      else StartFrom(m.(started := m.started + [name]), i + 1, fails)
  }

  function Started(m: Manager, fails: nat -> bool): (Manager, Outcome) {
    var m' := m.(state := Start);
    if m.state != Init then (m', Throws(NotInit)) else StartFrom(m', 0, fails)
  }

  /** `Shutdown` of the first `i` registered executors, last first. */
  function VisitDown(m: Manager, i: nat): (Manager, Outcome)
    requires i <= |m.used|
    decreases i
  {
    if i == 0 then (m, Ok)
    else
      var name := m.used[i - 1];
      if name !in m.keys then (m, Throws(Missing(name)))
      else VisitDown(m.(visited := m.visited + [name]), i - 1)
  }

  function ShutDown(m: Manager): (Manager, Outcome) {
    if m.state == Shutdown then (m, Ok)
    else VisitDown(m.(state := Shutdown), |m.used|)
  }

  function KindUnder(name: string, main: string, guard: string): string {
    if name == main then "main_thread" else if name == guard then "guard_thread" else "time_wheel"
  }

  /** Which kind of executor stands under which name. */
  predicate KindsAre(executorMap: map<string, string>, main: string, guard: string) {
    forall name :: name in executorMap ==> executorMap[name] == KindUnder(name, main, guard)
  }

  // ---- The manager in place --------------------------------------------------------------------

  class ExecutorManager {
    var state: State
    var usedExecutorNames: seq<string>
    var executorMap: map<string, string>  // the kind of the executor registered under a name
    ghost var started: seq<string>
    ghost var visited: seq<string>

    ghost function View(): Manager
      reads this
    {
      Manager(state, usedExecutorNames, executorMap.Keys, started, visited)
    }

    constructor ()
      ensures View() == FRESH
    {
      state, usedExecutorNames, executorMap := PreInit, [], map[];
      started, visited := [], [];
    }

    method Emplace(name: string, kind: string)
      modifies this`usedExecutorNames, this`executorMap
      ensures View() == Register(old(View()), name)
      ensures executorMap == if name in old(executorMap) then old(executorMap) else old(executorMap)[name := kind]
    {
      usedExecutorNames := usedExecutorNames + [name];
      if name !in executorMap {
        executorMap := executorMap[name := kind];
      }
    }

    /** The first pass: every entry is checked in order, and the names of the main and the guard
        thread are settled. */
    method CheckOptions(options: seq<ExecutorOptions>) returns (r: Outcome, main: string, guard: string)
      ensures r == CheckFrom(options, 0)
      ensures r.Ok? ==> main == MainName(options) && guard == GuardName(options)
    {
      main, guard := "nxpilot_main", "nxpilot_guard";
      var detectedMainThreadOptions := false;
      for idx := 0 to |options|
        invariant CheckFrom(options, 0) == CheckFrom(options, idx)
        invariant detectedMainThreadOptions <==> idx > 0 && IsMain(options[0])
        invariant forall j :: 0 < j < idx ==> !IsMain(options[j])
        invariant forall j :: 0 < j < idx && IsGuard(options[j]) ==> j == 1 && IsMain(options[0])
        invariant main == MainName(options[..idx]) && guard == GuardName(options[..idx])
      {
        var o := options[idx];
        assert options[..idx + 1] == options[..idx] + [o];
        if o.kind == "main_thread" {
          if idx != 0 {
            return Throws(MainNotFirst), main, guard;
          }
          main := o.name;
          detectedMainThreadOptions := true;
        } else if o.kind == "guard_thread" {
          if !((idx == 0 && !detectedMainThreadOptions) || (idx == 1 && detectedMainThreadOptions)) {
            return Throws(GuardMisplaced), main, guard;
          }
          guard := o.name;
        }
      }
      assert options[..|options|] == options;
      r := Ok;
    }

    method InitializeAll(options: seq<ExecutorOptions>, fails: nat -> bool) returns (r: Outcome)
      modifies this
      ensures (View(), r) == Initialize(old(View()), options, fails)
      ensures old(View()) == FRESH && r != Terminates ==> KindsAre(executorMap, MainName(options), GuardName(options))
    {
      var previous := state;
      state := Init;
      if previous != PreInit {
        return Throws(OnlyOnce);
      }
      var main, guard;
      r, main, guard := CheckOptions(options);
      if r.Throws? {
        return;
      }
      if fails(|usedExecutorNames|) {
        return Throws(InExecutor(main));
      }
      Emplace(main, "main_thread");
      if fails(|usedExecutorNames|) {
        return Throws(InExecutor(guard));
      }
      var taken := guard in executorMap;
      Emplace(guard, "guard_thread");
      if taken {
        return Terminates;
      }
      r := RegisterRest(options, fails, main, guard);
    }

    /** The second pass. */
    method RegisterRest(options: seq<ExecutorOptions>, fails: nat -> bool, main: string, guard: string)
      returns (r: Outcome)
      requires main in executorMap && guard in executorMap
      modifies this`usedExecutorNames, this`executorMap
      ensures (View(), r) == RegisterFrom(old(View()), options, 0, fails)
      ensures KindsAre(old(executorMap), main, guard) ==> KindsAre(executorMap, main, guard)
    {
      for idx := 0 to |options|
        invariant RegisterFrom(View(), options, idx, fails) == RegisterFrom(old(View()), options, 0, fails)
        invariant main in executorMap && guard in executorMap
        invariant KindsAre(old(executorMap), main, guard) ==> KindsAre(executorMap, main, guard)
      {
        var o := options[idx];
        if o.kind != "main_thread" && o.kind != "guard_thread" {
          if o.name in executorMap {
            return Throws(DuplicateName(o.name));
          }
          if o.kind != "time_wheel" {
            return Throws(InvalidType(o.kind));
          }
          if fails(|usedExecutorNames|) {
            return Throws(InExecutor(o.name));
          }
          Emplace(o.name, "time_wheel");
        }
      }
      r := Ok;
    }

    method StartAll(fails: nat -> bool) returns (r: Outcome)
      modifies this`state, this`started
      ensures r == Throws(NotInit) <==> old(state) != Init
      ensures (View(), r) == Started(old(View()), fails)
    {
      var previous := state;
      state := Start;
      if previous != Init {
        return Throws(NotInit);
      }
      for i := 0 to |usedExecutorNames|
        invariant Started(old(View()), fails) == StartFrom(View(), i, fails)
      {
        var name := usedExecutorNames[i];
        if name !in executorMap {
          return Throws(Missing(name));
        }
        if fails(i) {
          return Throws(InExecutor(name));
        }
        started := started + [name];
      }
      r := Ok;
    }

    method ShutdownAll() returns (r: Outcome)
      modifies this`state, this`visited
      ensures (View(), r) == ShutDown(old(View()))
    {
      var previous := state;
      state := Shutdown;
      if previous == Shutdown {
        return Ok;
      }
      for i := |usedExecutorNames| downto 0
        invariant VisitDown(View(), i) == ShutDown(old(View()))
      {
        var name := usedExecutorNames[i];
        if name !in executorMap {
          return Throws(Missing(name));
        }
        visited := visited + [name];
      }
      r := Ok;
    }
  }

  // ---- Which configurations are accepted -----------------------------------------------------

  /** The length of the leading `[main_thread]? [guard_thread]?`. */
  function HeadLength(options: seq<ExecutorOptions>): (k: nat)
    ensures k <= |options|
  {
    if |options| > 0 && IsMain(options[0]) then (if |options| > 1 && IsGuard(options[1]) then 2 else 1)
    else if |options| > 0 && IsGuard(options[0]) then 1
    else 0
  }

  function Names(options: seq<ExecutorOptions>): (r: seq<string>)
    ensures |r| == |options|
  {
    seq(|options|, i requires 0 <= i < |options| => options[i].name)
  }

  predicate Distinct(names: seq<string>) {
    forall i, j :: 0 <= i < j < |names| ==> names[i] != names[j]
  }

  /** Shape `[main_thread]? [guard_thread]? time_wheel*`, with time-wheel names distinct from each
      other and from the effective names of the main and the guard thread. */
  predicate Acceptable(options: seq<ExecutorOptions>) {
    var wheels := options[HeadLength(options)..];
    && (forall i :: 0 <= i < |wheels| ==> IsWheel(wheels[i]))
    && Distinct(Names(wheels))
    && MainName(options) !in Names(wheels) && GuardName(options) !in Names(wheels)
  }

  lemma {:induction false} CheckExactly(options: seq<ExecutorOptions>, i: nat)
    requires i <= |options|
    ensures CheckFrom(options, i).Ok? <==>
      forall j :: i <= j < |options| && j >= HeadLength(options) ==> !IsMain(options[j]) && !IsGuard(options[j])
    decreases |options| - i
  {
    if i < |options| {
      CheckExactly(options, i + 1);
    }
  }

  /** The second pass over the rest of the list registers all of it, in order, exactly when every
      entry is a time wheel under a name that is new. */
  lemma {:induction false} RegisterExactly(m: Manager, options: seq<ExecutorOptions>, i: nat, fails: nat -> bool)
    requires i <= |options| && forall k: nat :: !fails(k)
    requires forall j :: i <= j < |options| ==> !IsMain(options[j]) && !IsGuard(options[j])
    ensures var (m', r) := RegisterFrom(m, options, i, fails);
      && (r.Ok? <==>
            && (forall j :: i <= j < |options| ==> IsWheel(options[j]) && options[j].name !in m.keys)
            && (forall j, k :: i <= j < k < |options| ==> options[j].name != options[k].name))
      && (r.Ok? ==> m'.used == m.used + Names(options[i..]) && m'.state == m.state && m'.visited == m.visited)
    decreases |options| - i
  {
    if i < |options| {
      var o := options[i];
      RegisterExactly(Register(m, o.name), options, i + 1, fails);
      assert Names(options[i..]) == [o.name] + Names(options[i + 1..]);
    }
  }

  /** A second pass that throws stops at some entry: the wheels before it are registered, in order,
      and nothing else; the entry has a name in use, or else an unknown kind, or else an
      executor that fails to initialize, and the error names it. */
  lemma {:induction false} RegisterStopsAt(m: Manager, options: seq<ExecutorOptions>, i: nat, fails: nat -> bool)
    returns (j: nat)
    requires i <= |options| && RegisterFrom(m, options, i, fails).1.Throws?
    requires forall l :: i <= l < |options| ==> !IsMain(options[l]) && !IsGuard(options[l])
    ensures i <= j < |options|
    ensures var (m', r) := RegisterFrom(m, options, i, fails);
      && m'.used == m.used + Names(options[i..j])
      && (forall l :: i <= l < j ==> IsWheel(options[l]))
      && r.error == (if options[j].name in m'.keys then DuplicateName(options[j].name)
                     else if !IsWheel(options[j]) then InvalidType(options[j].kind)
                     else InExecutor(options[j].name))
      && (r.error.InExecutor? ==> fails(|m'.used|))
    decreases |options| - i
  {
    var o := options[i];
    if o.name in m.keys || !IsWheel(o) || fails(|m.used|) {
      j := i;
      assert m.used + Names(options[i..i]) == m.used;
    } else {
      j := RegisterStopsAt(Register(m, o.name), options, i + 1, fails);
      assert Names(options[i..j]) == [o.name] + Names(options[i + 1..j]);
    }
  }

  /** The first pass reports the first entry that is out of place, as what it is. */
  lemma {:induction false} CheckReports(options: seq<ExecutorOptions>, i: nat) returns (j: nat)
    requires i <= |options| && CheckFrom(options, i).Throws?
    ensures i <= j < |options| && j >= HeadLength(options)
    ensures forall l :: i <= l < j && l >= HeadLength(options) ==> !IsMain(options[l]) && !IsGuard(options[l])
    ensures CheckFrom(options, i) == Throws(if IsMain(options[j]) then MainNotFirst else GuardMisplaced)
    ensures IsMain(options[j]) || IsGuard(options[j])
    decreases |options| - i
  {
    if IsMain(options[i]) && i != 0 {
      j := i;
    } else if IsGuard(options[i]) && !(i == 0 || (i == 1 && IsMain(options[0]))) {
      j := i;
    } else {
      j := CheckReports(options, i + 1);
    }
  }

  lemma {:induction false} SkipHead(m: Manager, options: seq<ExecutorOptions>, i: nat, fails: nat -> bool)
    requires i <= HeadLength(options)
    ensures RegisterFrom(m, options, i, fails) == RegisterFrom(m, options, HeadLength(options), fails)
    decreases HeadLength(options) - i
  {
    if i < HeadLength(options) {
      SkipHead(m, options, i + 1, fails);
    }
  }

  /** The same condition, read on the rest of the list by itself. */
  lemma RestIsAcceptable(options: seq<ExecutorOptions>, k: nat, keys: set<string>)
    requires k <= |options|
    ensures var rest := options[k..];
      ((forall i :: 0 <= i < |rest| ==> IsWheel(rest[i]))
        && Distinct(Names(rest)) && (forall name :: name in keys ==> name !in Names(rest)))
      <==>
      ((forall j :: k <= j < |options| ==> IsWheel(options[j]) && options[j].name !in keys)
        && (forall j, l :: k <= j < l < |options| ==> options[j].name != options[l].name))
  {
    var rest := options[k..];
    assert forall j :: k <= j < |options| ==> options[j] == rest[j - k] && Names(rest)[j - k] == options[j].name;
    assert forall j :: 0 <= j < |rest| ==> rest[j] == options[j + k] && Names(rest)[j] == options[j + k].name;
    if forall name :: name in keys ==> name !in Names(rest) {
      forall j | k <= j < |options|
        ensures options[j].name !in keys
      {
        assert Names(rest)[j - k] in Names(rest);
      }
    }
  }

  /** The main and the guard thread would be registered under one name. */
  predicate Collides(options: seq<ExecutorOptions>, fails: nat -> bool) {
    && CheckFrom(options, 0).Ok? && !fails(0) && !fails(1)
    && MainName(options) == GuardName(options)
  }

  /** `Initialize` of a fresh manager ends the process exactly if the first pass accepts, the main and
      the guard executor initialize, and their names coincide. */
  lemma TerminatesExactly(options: seq<ExecutorOptions>, fails: nat -> bool)
    ensures Initialize(FRESH, options, fails).1 == Terminates <==> Collides(options, fails)
  {
    var m1 := Register(FRESH.(state := Init), MainName(options));
    assert m1.keys == {MainName(options)} && |m1.used| == 1;
  }

  /** It does for a configuration that only names the main thread, as the guard thread is called by
      default. */
  lemma MainNamedAsGuardTerminates(fails: nat -> bool)
    requires !fails(0) && !fails(1)
    ensures Initialize(FRESH, [ExecutorOptions("nxpilot_guard", "main_thread")], fails).1 == Terminates
  {
    TerminatesExactly([ExecutorOptions("nxpilot_guard", "main_thread")], fails);
  }

  /** In a list with a wrong entry behind its head, that entry is no wheel. */
  lemma MisplacedIsNoWheel(options: seq<ExecutorOptions>)
    requires CheckFrom(options, 0).Throws?
    ensures !Acceptable(options)
  {
    var j := CheckReports(options, 0);
    assert options[HeadLength(options)..][j - HeadLength(options)] == options[j];
  }

  lemma RegistersExactly(options: seq<ExecutorOptions>, fails: nat -> bool)
    requires CheckFrom(options, 0).Ok? && MainName(options) != GuardName(options) && forall k: nat :: !fails(k)
    ensures var m := Register(Register(FRESH.(state := Init), MainName(options)), GuardName(options));
      var (m', r) := RegisterFrom(m, options, 0, fails);
      && (r.Ok? <==> Acceptable(options))
      && (r.Ok? ==> m'.used == [MainName(options), GuardName(options)] + Names(options[HeadLength(options)..]))
  {
    var k := HeadLength(options);
    var m := Register(Register(FRESH.(state := Init), MainName(options)), GuardName(options));
    CheckExactly(options, 0);
    SkipHead(m, options, 0, fails);
    RegisterExactly(m, options, k, fails);
    assert m.keys == {MainName(options), GuardName(options)};
    assert m.used == [MainName(options), GuardName(options)];
    RestIsAcceptable(options, k, m.keys);
  }

  /** A fresh manager whose executors all initialize accepts exactly the `Acceptable` lists in which the
      main and the guard thread have different names; it then holds the main thread, the guard
      thread and the wheels in order, under distinct names, which are the keys of its map. */
  lemma AcceptsExactly(options: seq<ExecutorOptions>, fails: nat -> bool)
    requires forall k: nat :: !fails(k)
    ensures var (m, r) := Initialize(FRESH, options, fails);
      && (r.Ok? <==> Acceptable(options) && MainName(options) != GuardName(options))
      && (r.Ok? ==> m.used == [MainName(options), GuardName(options)] + Names(options[HeadLength(options)..]))
      && (r.Ok? ==> Distinct(m.used) && (set name | name in m.used) == m.keys)
  {
    InitializeKeeps(FRESH, options, fails);
    if CheckFrom(options, 0).Throws? {
      MisplacedIsNoWheel(options);
    } else if MainName(options) != GuardName(options) {
      RegistersExactly(options, fails);
    }
  }

  /** All names in the order in which they are registered. */
  function AllNames(options: seq<ExecutorOptions>): seq<string> {
    [MainName(options), GuardName(options)] + Names(options[HeadLength(options)..])
  }

  /** Why the second pass does not register entry `o` as the `k`-th executor. */
  function Refused(m: Manager, o: ExecutorOptions, k: nat, fails: nat -> bool): Option<Error> {
    if o.name in m.keys then Some(DuplicateName(o.name))
    else if !IsWheel(o) then Some(InvalidType(o.kind))
    else if fails(k) then Some(InExecutor(o.name))
    else None
  }

  /** The second pass registers entries in order up to the first that is refused. */
  lemma {:induction false} RegistersUpToFirst(m: Manager, options: seq<ExecutorOptions>, i: nat, fails: nat -> bool)
    returns (j: nat)
    requires i <= |options|
    requires forall l :: i <= l < |options| ==> !IsMain(options[l]) && !IsGuard(options[l])
    ensures i <= j <= |options|
    ensures var (m', r) := RegisterFrom(m, options, i, fails);
      && m'.used == m.used + Names(options[i..j])
      && (forall k :: |m.used| <= k < |m'.used| ==> !fails(k))
      && if j == |options| then r == Ok
         else r.Throws? && Refused(m', options[j], |m'.used|, fails) == Some(r.error)
    decreases |options| - i
  {
    if i == |options| || Refused(m, options[i], |m.used|, fails).Some? {
      j := i;
      assert m.used + Names(options[i..i]) == m.used;
    } else {
      j := RegistersUpToFirst(Register(m, options[i].name), options, i + 1, fails);
      assert Names(options[i..j]) == [options[i].name] + Names(options[i + 1..j]);
    }
  }

  /** What the first `Initialize` registers, whichever executors fail: nothing if the first pass throws;
      else the names in order up to the first that fails to initialize, is in use, or is of no known
      kind, which the error names; all of them exactly if it returns. */
  lemma InitializeRegisters(options: seq<ExecutorOptions>, fails: nat -> bool)
    ensures var (m, r) := Initialize(FRESH, options, fails);
      var k, all := |m.used|, AllNames(options);
      && (m.started, m.visited, m.state) == ([], [], Init)
      && (CheckFrom(options, 0).Throws? ==> k == 0 && r == CheckFrom(options, 0))
      && (CheckFrom(options, 0).Ok? && r != Terminates ==>
            && k <= |all| && m.used == all[..k] && (forall l :: 0 <= l < k ==> !fails(l))
            && if k == |all| then r == Ok
               else if k < 2 then r == Throws(InExecutor(all[k])) && fails(k)
               else r.Throws? && Refused(m, options[HeadLength(options) + k - 2], k, fails) == Some(r.error))
      && r != Throws(OnlyOnce)
  {
    if CheckFrom(options, 0).Throws? {
      var j := CheckReports(options, 0);
    } else if !fails(0) && !fails(1) && MainName(options) != GuardName(options) {
      RestRegisters(options, fails);
    }
  }

  lemma RestRegisters(options: seq<ExecutorOptions>, fails: nat -> bool)
    requires CheckFrom(options, 0).Ok? && !fails(0) && !fails(1)
    ensures var m := Register(Register(FRESH.(state := Init), MainName(options)), GuardName(options));
      var (m', r) := RegisterFrom(m, options, 0, fails);
      var k, all := |m'.used|, AllNames(options);
      && (m'.started, m'.visited, m'.state) == ([], [], Init)
      && 2 <= k <= |all| && m'.used == all[..k] && (forall l :: 0 <= l < k ==> !fails(l))
      && if k == |all| then r == Ok
         else r.Throws? && Refused(m', options[HeadLength(options) + k - 2], k, fails) == Some(r.error)
  {
    var h := HeadLength(options);
    var m := Register(Register(FRESH.(state := Init), MainName(options)), GuardName(options));
    CheckExactly(options, 0);
    SkipHead(m, options, 0, fails);
    var j := RegistersUpToFirst(m, options, h, fails);
    RegisterFromKeepsRest(m, options, h, fails);
    NamesPrefix(options, h, j);
    TakeMore([MainName(options), GuardName(options)], Names(options[h..]), j - h);
  }

  lemma NamesPrefix(options: seq<ExecutorOptions>, i: nat, j: nat)
    requires i <= j <= |options|
    ensures Names(options[i..j]) == Names(options[i..])[..j - i]
  {
  }

  lemma TakeMore(a: seq<string>, b: seq<string>, k: nat)
    requires k <= |b|
    ensures a + b[..k] == (a + b)[..|a| + k]
  {
  }

  lemma {:induction false} RegisterFromKeepsRest(m: Manager, options: seq<ExecutorOptions>, i: nat, fails: nat -> bool)
    requires i <= |options|
    ensures var m' := RegisterFrom(m, options, i, fails).0;
      (m'.started, m'.visited, m'.state) == (m.started, m.visited, m.state)
    decreases |options| - i
  {
    if i < |options| {
      var o := options[i];
      RegisterFromKeepsRest(
        if IsMain(o) || IsGuard(o) then m else Register(m, o.name), options, i + 1, fails);
    }
  }

  /** Without any configuration the main and the guard thread are registered under their own names. */
  lemma DefaultNames(fails: nat -> bool)
    requires forall k: nat :: !fails(k)
    ensures var (m, r) := Initialize(FRESH, [], fails); r == Ok && m.used == ["nxpilot_main", "nxpilot_guard"]
  {
    AcceptsExactly([], fails);
  }

  /** A configuration names them, and may add timing wheels. */
  lemma ConfiguredNames(fails: nat -> bool)
    requires forall k: nat :: !fails(k)
    ensures var (m, r) := Initialize(
      FRESH, [ExecutorOptions("a", "main_thread"), ExecutorOptions("b", "guard_thread"),
              ExecutorOptions("c", "time_wheel")], fails);
      r == Ok && m.used == ["a", "b", "c"]
  {
    var full := [ExecutorOptions("a", "main_thread"), ExecutorOptions("b", "guard_thread"),
                 ExecutorOptions("c", "time_wheel")];
    AcceptsExactly(full, fails);
    assert full[2..] == [full[2]];
    assert "a" != "b" && "a" != "c" && "b" != "c";
  }

  /** A main thread behind a timing wheel is refused. */
  lemma MainBehindWheel(fails: nat -> bool)
    ensures Initialize(
      FRESH, [ExecutorOptions("c", "time_wheel"), ExecutorOptions("a", "main_thread")], fails).1
      == Throws(MainNotFirst)
  {
    var late := [ExecutorOptions("c", "time_wheel"), ExecutorOptions("a", "main_thread")];
    assert CheckFrom(late, 0) == CheckFrom(late, 1) == Throws(MainNotFirst);
  }

  // ---- What shutdown visits --------------------------------------------------------------------

  datatype Call = InitializeCall(options: seq<ExecutorOptions>, fails: nat -> bool)
                | StartCall(fails: nat -> bool)
                | ShutdownCall

  function Perform(m: Manager, c: Call): (Manager, Outcome) {
    match c
    case InitializeCall(options, fails) => Initialize(m, options, fails)
    case StartCall(fails) => Started(m, fails)
    case ShutdownCall => ShutDown(m)
  }

  /** A fresh manager after any calls, in any order, whichever of them throw; `None` once the process
      has been terminated. */
  ghost function Run(calls: seq<Call>): Option<Manager> {
    if calls == [] then Some(FRESH)
    else
      match Run(calls[..|calls| - 1])
      case None => None
      case Some(m) =>
        var (m', r) := Perform(m, calls[|calls| - 1]);
        if r == Terminates then None else Some(m')
  }

  function Reversed(s: seq<string>): (r: seq<string>)
    ensures |r| == |s|
    ensures forall i :: 0 <= i < |s| ==> r[i] == s[|s| - 1 - i]
  {
    if s == [] then [] else [s[|s| - 1]] + Reversed(s[..|s| - 1])
  }

  lemma {:induction false} VisitsInReverse(m: Manager, i: nat)
    requires i <= |m.used| && forall name :: name in m.used ==> name in m.keys
    ensures VisitDown(m, i) == (m.(visited := m.visited + Reversed(m.used[..i])), Ok)
    decreases i
  {
    if i > 0 {
      var m' := m.(visited := m.visited + [m.used[i - 1]]);
      VisitsInReverse(m', i - 1);
      assert m.used[..i][..i - 1] == m.used[..i - 1];
      assert m'.visited + Reversed(m.used[..i - 1]) == m.visited + Reversed(m.used[..i]);
    } else {
      assert m.visited + Reversed(m.used[..0]) == m.visited;
    }
  }

  /** The map has a key for every registered name and no other, and no name was registered twice. */
  ghost predicate Registered(m: Manager) {
    && (forall name :: name in m.used <==> name in m.keys)
    && (m.state == PreInit ==> m == FRESH)
    && Distinct(m.used)
  }

  lemma RegisterKeeps(m: Manager, name: string)
    requires Registered(m) && m.state != PreInit && name !in m.keys
    ensures Registered(Register(m, name))
  {
  }

  lemma {:induction false} RegisterFromKeeps(m: Manager, options: seq<ExecutorOptions>, i: nat, fails: nat -> bool)
    requires i <= |options| && Registered(m) && m.state != PreInit
    ensures var m' := RegisterFrom(m, options, i, fails).0;
      Registered(m') && m'.state == m.state && m'.visited == m.visited
    decreases |options| - i
  {
    if i < |options| {
      var o := options[i];
      if IsMain(o) || IsGuard(o) {
        RegisterFromKeeps(m, options, i + 1, fails);
      } else if o.name !in m.keys && IsWheel(o) && !fails(|m.used|) {
        RegisterKeeps(m, o.name);
        RegisterFromKeeps(Register(m, o.name), options, i + 1, fails);
      }
    }
  }

  lemma InitializeKeeps(m: Manager, options: seq<ExecutorOptions>, fails: nat -> bool)
    requires Registered(m)
    ensures var (m', r) := Initialize(m, options, fails);
      && (r != Terminates ==> Registered(m'))
      && m'.state == Init && m'.visited == m.visited
      && (r == Terminates <==> m.state == PreInit && Collides(options, fails))
  {
    var m0 := m.(state := Init);
    if m.state == PreInit && CheckFrom(options, 0).Ok? && !fails(0) {
      TerminatesExactly(options, fails);
      var m1 := Register(m0, MainName(options));
      RegisterKeeps(m0, MainName(options));
      if !fails(1) && GuardName(options) !in m1.keys {
        RegisterKeeps(m1, GuardName(options));
        RegisterFromKeeps(Register(m1, GuardName(options)), options, 0, fails);
      }
    }
  }

  lemma PerformKeeps(m: Manager, c: Call)
    requires Registered(m)
    ensures var (m', r) := Perform(m, c);
      && (r != Terminates ==> Registered(m')) && (m'.state == Shutdown <==> c.ShutdownCall?)
      && (m'.state == Init <==> c.InitializeCall?) && m'.state != PreInit
      && (r == Terminates <==> m.state == PreInit && c.InitializeCall? && Collides(c.options, c.fails))
      && (!c.InitializeCall? ==> m'.used == m.used)
      && (c.ShutdownCall? ==> r == Ok)
      && m'.visited == m.visited + (if c.ShutdownCall? && m.state != Shutdown then Reversed(m.used) else [])
  {
    match c
    case InitializeCall(options, fails) => InitializeKeeps(m, options, fails);
    case StartCall(fails) =>
      if m.state == Init {
        var k := StartsUpToFirstFailure(m.(state := Start), 0, fails);
      }
    case ShutdownCall => ShutDownVisitsUsed(m);
  }

  lemma {:induction false} RunKeepsRegistered(calls: seq<Call>)
    requires Run(calls).Some?
    ensures var m := Run(calls).value;
      && Registered(m) && (m.state == PreInit <==> calls == [])
      && (m.state == Init <==> calls != [] && calls[|calls| - 1].InitializeCall?)
      && (m.state == Shutdown <==> calls != [] && calls[|calls| - 1].ShutdownCall?)
  {
    if calls != [] {
      RunKeepsRegistered(calls[..|calls| - 1]);
      PerformKeeps(Run(calls[..|calls| - 1]).value, calls[|calls| - 1]);
    }
  }

  /** A run ends in termination exactly if its first call is an `Initialize` in which the names of the
      main and the guard thread collide. */
  lemma {:induction false} RunTerminatesExactly(calls: seq<Call>)
    ensures Run(calls).None? <==>
      calls != [] && calls[0].InitializeCall? && Collides(calls[0].options, calls[0].fails)
  {
    if calls != [] {
      var before := calls[..|calls| - 1];
      RunTerminatesExactly(before);
      if Run(before).Some? {
        RunKeepsRegistered(before);
        PerformKeeps(Run(before).value, calls[|calls| - 1]);
      }
    }
  }

  lemma RunAppend(calls: seq<Call>, c: Call)
    requires Run(calls).Some?
    ensures var (m', r) := Perform(Run(calls).value, c);
      Run(calls + [c]) == if r == Terminates then None else Some(m')
  {
    assert (calls + [c])[..|calls|] == calls;
  }

  lemma ShutDownVisitsUsed(m: Manager)
    requires Registered(m)
    ensures ShutDown(m)
      == (m.(state := Shutdown,
             visited := m.visited + if m.state == Shutdown then [] else Reversed(m.used)), Ok)
  {
    if m.state != Shutdown {
      VisitsInReverse(m.(state := Shutdown), |m.used|);
      assert m.used[..|m.used|] == m.used;
    } else {
      assert m.visited + [] == m.visited;
    }
  }

  /** After any calls, partial ones included, `Shutdown` never misses an entry of the map; it
      visits the registered executors in reverse order of registration if the call before it was
      not a `Shutdown`, and nothing otherwise. */
  lemma ShutdownVisits(calls: seq<Call>)
    requires Run(calls).Some?
    ensures var m, (m', r) := Run(calls).value, ShutDown(Run(calls).value);
      && r == Ok && m'.used == m.used && Run(calls + [ShutdownCall]) == Some(m')
      && m'.visited == m.visited
        + (if calls != [] && calls[|calls| - 1].ShutdownCall? then [] else Reversed(m.used))
  {
    RunKeepsRegistered(calls);
    ShutDownVisitsUsed(Run(calls).value);
    RunAppend(calls, ShutdownCall);
  }

  /** `Start` of the executors from the `i`-th on starts those before the first that throws, in order, and
      the outcome names that one. */
  lemma {:induction false} StartsUpToFirstFailure(m: Manager, i: nat, fails: nat -> bool) returns (k: nat)
    requires i <= |m.used| && forall name :: name in m.used ==> name in m.keys
    ensures i <= k <= |m.used|
    ensures forall l :: i <= l < k ==> !fails(l)
    ensures StartFrom(m, i, fails).0 == m.(started := m.started + m.used[i..k])
    ensures if k == |m.used| then StartFrom(m, i, fails).1 == Ok
            else fails(k) && StartFrom(m, i, fails).1 == Throws(InExecutor(m.used[k]))
    decreases |m.used| - i
  {
    if i == |m.used| || fails(i) {
      k := i;
      assert m.started + m.used[i..i] == m.started;
    } else {
      var m' := m.(started := m.started + [m.used[i]]);
      k := StartsUpToFirstFailure(m', i + 1, fails);
      assert m'.started + m.used[i + 1..k] == m.started + m.used[i..k];
    }
  }

  /** The first `k` registered executors have been started, and the outcome says why no more. */
  ghost predicate StartedFirst(m: Manager, m': Manager, r: Outcome, k: nat, fails: nat -> bool) {
    && k <= |m.used| && m'.started == m.started + m.used[..k]
    && (forall l :: 0 <= l < k ==> !fails(l))
    && if k == |m.used| then r == Ok else fails(k) && r == Throws(InExecutor(m.used[k]))
  }

  /** After any calls in any order, whichever throw: `Start` throws `NotInit`, and starts nothing, exactly
      if the call before it was not an `Initialize`; otherwise it starts the registered executors in
      order up to the first that throws, and returns exactly if none does. */
  lemma StartsExactly(calls: seq<Call>, fails: nat -> bool)
    requires Run(calls).Some?
    ensures Run(calls + [StartCall(fails)]).Some?
    ensures var m, m', r := Run(calls).value, Run(calls + [StartCall(fails)]).value,
        Perform(Run(calls).value, StartCall(fails)).1;
      && (m'.used, m'.keys, m'.visited) == (m.used, m.keys, m.visited)
      && (r == Throws(NotInit) <==> calls == [] || !calls[|calls| - 1].InitializeCall?)
      && if calls == [] || !calls[|calls| - 1].InitializeCall? then m'.started == m.started
         else exists k :: StartedFirst(m, m', r, k, fails)
  {
    RunKeepsRegistered(calls);
    RunAppend(calls, StartCall(fails));
    var m := Run(calls).value;
    if m.state == Init {
      var k := StartsUpToFirstFailure(m.(state := Start), 0, fails);
      assert m.used[0..k] == m.used[..k];
      assert StartedFirst(m, Run(calls + [StartCall(fails)]).value, Perform(m, StartCall(fails)).1, k, fails);
    }
  }

  /** `Initialize` succeeds or fails on its own merits only as the first call; after any other it throws
      `OnlyOnce` and registers nothing. */
  lemma InitializesOnlyOnce(calls: seq<Call>, options: seq<ExecutorOptions>, fails: nat -> bool)
    requires Run(calls).Some?
    ensures var (m', r) := Perform(Run(calls).value, InitializeCall(options, fails));
      && (r == Throws(OnlyOnce) <==> calls != [])
      && (calls != [] ==> m' == Run(calls).value.(state := Init))
  {
    RunKeepsRegistered(calls);
    if calls == [] {
      InitializeRegisters(options, fails);
    }
  }

  lemma {:induction false} NothingVisitedBefore(calls: seq<Call>)
    requires Run(calls).Some? && forall i :: 0 <= i < |calls| ==> !calls[i].ShutdownCall?
    ensures Run(calls).value.visited == []
  {
    if calls != [] {
      RunKeepsRegistered(calls[..|calls| - 1]);
      NothingVisitedBefore(calls[..|calls| - 1]);
      PerformKeeps(Run(calls[..|calls| - 1]).value, calls[|calls| - 1]);
    }
  }

  lemma ReversedOnce(s: seq<string>, name: string)
    requires Distinct(s) && name in s
    ensures multiset(Reversed(s))[name] == 1
  {
    var r := Reversed(s);
    assert Distinct(r);
    var i :| 0 <= i < |s| && s[i] == name;
    assert r[|s| - 1 - i] == name;
    DistinctOnce(r, name);
  }

  lemma {:induction false} DistinctOnce(s: seq<string>, name: string)
    requires Distinct(s)
    ensures multiset(s)[name] == if name in s then 1 else 0
  {
    if s != [] {
      assert s == [s[0]] + s[1..];
      assert forall i :: 1 <= i < |s| ==> s[i] == s[1..][i - 1];
      DistinctOnce(s[1..], name);
    }
  }

  function Shutdowns(k: nat): seq<Call> {
    if k == 0 then [] else Shutdowns(k - 1) + [ShutdownCall]
  }

  lemma {:induction false} AfterShutdowns(calls: seq<Call>, more: nat)
    requires Run(calls).Some? && forall i :: 0 <= i < |calls| ==> !calls[i].ShutdownCall?
    ensures var m, r := Run(calls).value, Run(calls + Shutdowns(more + 1));
      r.Some? && r.value.used == m.used && r.value.visited == Reversed(m.used)
    decreases more
  {
    var before := calls + Shutdowns(more);
    assert calls + Shutdowns(more + 1) == before + [ShutdownCall];
    if more == 0 {
      assert before == calls;
      NothingVisitedBefore(calls);
    } else {
      AfterShutdowns(calls, more - 1);
      assert before[|before| - 1] == ShutdownCall;
    }
    ShutdownVisits(before);
  }

  /** Over any run: the first `Shutdown` visits every registered executor exactly once, the last one
      registered first; any further `Shutdown`s visit nothing. */
  lemma ShutdownVisitsEachOnce(calls: seq<Call>, more: nat)
    requires Run(calls).Some? && forall i :: 0 <= i < |calls| ==> !calls[i].ShutdownCall?
    ensures Run(calls + Shutdowns(more + 1)).Some?
    ensures var m, m' := Run(calls).value, Run(calls + Shutdowns(more + 1)).value;
      && m'.visited == Reversed(m.used) && m'.used == m.used
      && forall name :: name in m.keys ==> multiset(m'.visited)[name] == 1
  {
    AfterShutdowns(calls, more);
    RunKeepsRegistered(calls);
    EachOnce(Run(calls).value);
  }

  lemma EachOnce(m: Manager)
    requires Registered(m)
    ensures forall name :: name in m.keys ==> multiset(Reversed(m.used))[name] == 1
  {
    forall name | name in m.keys
      ensures multiset(Reversed(m.used))[name] == 1
    {
      ReversedOnce(m.used, name);
    }
  }
}
