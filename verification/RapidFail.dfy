/**
 The limit on rapid failures: how often PROCESS_MANAGER starts a process that then fails.

 All of it runs under the manager's exclusive lock, so a run is a sequence of critical sections, each with the
 time at which it happens.  GetTickCount is that time in milliseconds, modulo 2^32.
 */
module RapidFail {
  import opened Words

  const LONG_MAX: int := 0x7FFF_FFFF
  const ONE_MINUTE_IN_MILLISECONDS: int := 60000

  /** One place in the list of processes. */
  datatype Slot = Empty | Process(port: nat, ready: bool)

  datatype Manager = Manager(rapidFailCount: int, rapidFailTickStart: dword, slots: seq<Slot>)

  /** How Initialize and StartProcess of a new process end. */
  datatype Outcome = NotInitialized | Started(port: nat, failed: bool, ready: bool)
  {
    predicate Fails() { Started? && (failed || !ready) }
  }

  /** The critical sections: of GetProcess for one slot, of ShutdownProcess, of ShutdownAllProcesses. */
  datatype Action =
    | Get(now: nat, index: nat, limit: nat, outcome: Outcome)
    | Exit(now: nat, port: nat)
    | ShutAll(now: nat)

  /** InterlockedIncrement of a LONG. */
  function Increment(count: int): int {
    if count == LONG_MAX then -LONG_MAX - 1 else count + 1
  }

  function Tick(now: nat): dword { now % TWO_32 }

  /** A minute has passed since the last reset, as far as the 32-bit subtraction shows it. */
  predicate MinuteIsOver(m: Manager, now: nat) {
    (Tick(now) - m.rapidFailTickStart) % TWO_32 >= ONE_MINUTE_IN_MILLISECONDS
  }

  /** What RapidFailsPerMinuteExceeded does before it compares. */
  function Checked(m: Manager, now: nat): Manager {
    if MinuteIsOver(m, now) then m.(rapidFailCount := 0, rapidFailTickStart := Tick(now)) else m
  }

  predicate HasPort(s: Slot, port: nat) { s.Process? && s.port == port }

  /** A process is stopped, which counts, and taken out. */
  function StoppedAt(m: Manager, i: nat): Manager
    requires i < |m.slots|
  {
    m.(rapidFailCount := Increment(m.rapidFailCount), slots := m.slots[i := Empty])
  }

  /** ShutdownProcessNoLock, from slot i on. */
  function ShutDown(m: Manager, port: nat, i: nat): (m': Manager)
    requires i <= |m.slots|
    ensures |m'.slots| == |m.slots| && m'.rapidFailTickStart == m.rapidFailTickStart
    decreases |m.slots| - i
  {
    if i == |m.slots| then m
    else ShutDown(if HasPort(m.slots[i], port) then StoppedAt(m, i) else m, port, i + 1)
  }

  /** A process that is not ready is terminated. */
  function Vacated(m: Manager, index: nat): (m': Manager)
    requires index < |m.slots|
    ensures |m'.slots| == |m.slots|
  {
    if m.slots[index].Process? && !m.slots[index].ready then ShutDown(m, m.slots[index].port, 0) else m
  }

  predicate Fits(m: Manager, a: Action) { a.Get? ==> a.index < |m.slots| }

  /** GetProcess finds no ready process. */
  predicate Asks(m: Manager, a: Action)
    requires Fits(m, a)
  {
    a.Get? && !(m.slots[a.index].Process? && m.slots[a.index].ready)
  }

  predicate ResetsAt(m: Manager, a: Action)
    requires Fits(m, a)
  {
    Asks(m, a) && MinuteIsOver(Vacated(m, a.index), a.now)
  }

  /** GetProcess goes on to make a process. */
  predicate Begins(m: Manager, a: Action)
    requires Fits(m, a)
  {
    Asks(m, a) && Checked(Vacated(m, a.index), a.now).rapidFailCount <= a.limit
  }

  /** A StartProcess call begins, and fails. */
  predicate FailsAt(m: Manager, a: Action)
    requires Fits(m, a)
  {
    Begins(m, a) && a.outcome.Fails()
  }

  /** A new process for a slot: it counts if it fails, and stays if it is ready. */
  function Placed(m: Manager, index: nat, outcome: Outcome): Manager
    requires index < |m.slots|
  {
    if outcome.NotInitialized? then m.(slots := m.slots[index := Empty])
    else if outcome.Fails() then StoppedAt(m, index)
    else m.(slots := m.slots[index := Process(outcome.port, true)])
  }

  function Next(m: Manager, a: Action): (m': Manager)
    requires Fits(m, a)
    ensures |m'.slots| == |m.slots|
  {
    match a
    case Get(now, index, limit, outcome) =>
      if !Asks(m, a) then m
      else
        var checked := Checked(Vacated(m, index), now);
        if Begins(m, a) then Placed(checked, index, outcome) else checked.(slots := checked.slots[index := Empty])
    case Exit(now, port) => ShutDown(m, port, 0)
    case ShutAll(now) => m.(slots := seq(|m.slots|, _ => Empty))
  }

  // ----- What every critical section keeps -----

  /** The number of processes in the list, from slot i on. */
  function LiveFrom(slots: seq<Slot>, i: nat): nat
    decreases |slots| - i
  {
    if i >= |slots| then 0 else (if slots[i].Process? then 1 else 0) + LiveFrom(slots, i + 1)
  }

  lemma {:induction false} LiveBound(slots: seq<Slot>, i: nat)
    requires i <= |slots|
    ensures LiveFrom(slots, i) <= |slots| - i
    decreases |slots| - i
  {
    if i < |slots| { LiveBound(slots, i + 1); }
  }

  lemma {:induction false} LiveAfter(slots: seq<Slot>, i: nat, k: nat, s: Slot)
    requires k < |slots|
    ensures LiveFrom(slots[k := s], i)
      == LiveFrom(slots, i) + if k < i then 0 else (if s.Process? then 1 else 0) - (if slots[k].Process? then 1 else 0)
    decreases |slots| - i
  {
    if i < |slots| { LiveAfter(slots, i + 1, k, s); }
  }

  lemma {:induction false} NoneLive(slots: seq<Slot>, i: nat)
    requires forall k | 0 <= k < |slots| :: slots[k].Empty?
    ensures LiveFrom(slots, i) == 0
    decreases |slots| - i
  {
    if i < |slots| { NoneLive(slots, i + 1); }
  }

  /** Whoever is in the list is ready; and the count can still be raised by every one of them without
      passing the bound, L being the largest limit in use. */
  ghost predicate Inv(m: Manager, L: nat) {
    && L + 1 + |m.slots| <= LONG_MAX
    && 0 <= m.rapidFailCount
    && m.rapidFailCount + LiveFrom(m.slots, 0) <= L + 1 + |m.slots|
    && forall k | 0 <= k < |m.slots| && m.slots[k].Process? :: m.slots[k].ready
  }

  lemma StoppedInv(m: Manager, i: nat, L: nat)
    requires Inv(m, L) && i < |m.slots| && m.slots[i].Process?
    ensures Inv(StoppedAt(m, i), L) && StoppedAt(m, i).rapidFailCount == m.rapidFailCount + 1
  {
    LiveAfter(m.slots, 0, i, Empty);
    SomeLive(m.slots, 0, i);
  }

  lemma {:induction false} SomeLive(slots: seq<Slot>, i: nat, k: nat)
    requires i <= k < |slots| && slots[k].Process?
    ensures LiveFrom(slots, i) > 0
    decreases k - i
  {
    if i < k { SomeLive(slots, i + 1, k); }
  }

  /** Shutting down takes out exactly the processes with the port, and counts them. */
  lemma {:induction false} ShutDownInv(m: Manager, port: nat, i: nat, L: nat)
    requires Inv(m, L) && i <= |m.slots|
    ensures Inv(ShutDown(m, port, i), L)
    ensures forall k | 0 <= k < |m.slots| ::
      ShutDown(m, port, i).slots[k] == if i <= k && HasPort(m.slots[k], port) then Empty else m.slots[k]
    ensures ShutDown(m, port, i).rapidFailCount + LiveFrom(ShutDown(m, port, i).slots, 0)
      == m.rapidFailCount + LiveFrom(m.slots, 0)
    ensures ShutDown(m, port, i).rapidFailCount >= m.rapidFailCount
    decreases |m.slots| - i
  {
    if i < |m.slots| {
      if HasPort(m.slots[i], port) {
        StoppedInv(m, i, L);
        LiveAfter(m.slots, 0, i, Empty);
        ShutDownInv(StoppedAt(m, i), port, i + 1, L);
      } else {
        ShutDownInv(m, port, i + 1, L);
      }
    }
  }

  /** Every critical section keeps the invariant. */
  lemma StepInv(m: Manager, a: Action, L: nat)
    requires Inv(m, L) && Fits(m, a) && (a.Get? ==> a.limit <= L)
    ensures Inv(Next(m, a), L)
  {
    match a
    case Get(now, index, limit, outcome) =>
      if Asks(m, a) {
        assert Vacated(m, index) == m && m.slots[index] == Empty && m.slots[index := Empty] == m.slots;
        LiveBound(m.slots, 0);
        LiveAfter(m.slots, 0, index, Process(if outcome.Started? then outcome.port else 0, true));
        LiveBound(m.slots[index := Process(if outcome.Started? then outcome.port else 0, true)], 0);
      }
    case Exit(now, port) => ShutDownInv(m, port, 0, L);
    case ShutAll(now) => NoneLive(Next(m, a).slots, 0);
  }

  /** A ready process is handed out as it is. */
  lemma ReadyIsServed(m: Manager, a: Action)
    requires a.Get? && Fits(m, a) && m.slots[a.index].Process? && m.slots[a.index].ready
    ensures Next(m, a) == m && !Begins(m, a)
  {
  }

  /** A process in the list stays there, whatever requests come, until its exit is reported or all are shut down. */
  lemma ProcessStays(m: Manager, a: Action, k: nat, L: nat)
    requires Inv(m, L) && Fits(m, a) && k < |m.slots| && m.slots[k].Process?
    requires !a.ShutAll? && !(a.Exit? && a.port == m.slots[k].port)
    ensures Next(m, a).slots[k] == m.slots[k]
  {
    match a
    case Get(now, index, limit, outcome) =>
      if index == k { ReadyIsServed(m, a); }
      else if Asks(m, a) { assert Vacated(m, index) == m; }
    case Exit(now, port) => ShutDownInv(m, port, 0, L);
  }

  /** A request gets a process exactly if there is a ready one, or one may be started and comes up ready. */
  lemma ServedIff(m: Manager, a: Action, L: nat)
    requires Inv(m, L) && a.Get? && Fits(m, a) && a.limit <= L
    ensures Next(m, a).slots[a.index].Process? <==>
      || m.slots[a.index].Process?
      || ((MinuteIsOver(m, a.now) || m.rapidFailCount <= a.limit)
          && a.outcome.Started? && !a.outcome.failed && a.outcome.ready)
    ensures forall k | 0 <= k < |m.slots| && k != a.index :: Next(m, a).slots[k] == m.slots[k]
    ensures Next(m, a).slots[a.index].Process? && m.slots[a.index].Empty? ==>
      Next(m, a).slots[a.index] == Process(a.outcome.port, true)
  {
    if Asks(m, a) {
      assert Vacated(m, a.index) == m;
      BeginsIff(m, a, L);
    } else {
      ReadyIsServed(m, a);
    }
  }

  /** How a critical section moves the count. */
  lemma StepCount(m: Manager, a: Action, L: nat)
    requires Inv(m, L) && Fits(m, a) && (a.Get? ==> a.limit <= L)
    ensures !ResetsAt(m, a) ==> Next(m, a).rapidFailCount >= m.rapidFailCount + if FailsAt(m, a) then 1 else 0
    ensures FailsAt(m, a) ==> Next(m, a).rapidFailCount >= 1 && (!ResetsAt(m, a) ==> m.rapidFailCount <= a.limit)
    ensures Next(m, a).rapidFailTickStart == if ResetsAt(m, a) then Tick(a.now) else m.rapidFailTickStart
  {
    match a
    case Get(now, index, limit, outcome) =>
      if Asks(m, a) { assert Vacated(m, index) == m; }
    case Exit(now, port) => ShutDownInv(m, port, 0, L);
    case ShutAll(now) =>
  }

  /** Exactly when a process is made: the minute seems to be over, or the limit is not exceeded. */
  lemma BeginsIff(m: Manager, a: Action, L: nat)
    requires Inv(m, L) && Fits(m, a) && Asks(m, a)
    ensures Begins(m, a) <==> MinuteIsOver(m, a.now) || m.rapidFailCount <= a.limit
  {
    assert Vacated(m, a.index) == m;
  }

  /** The counter is reset a minute after the last reset, but only if the time since, modulo 2^32, shows it. */
  lemma MinuteOverIff(m: Manager, start: nat, now: nat)
    requires m.rapidFailTickStart == Tick(start) && start <= now
    ensures MinuteIsOver(m, now) <==> (now - start) % TWO_32 >= ONE_MINUTE_IN_MILLISECONDS
  {
    var d := (Tick(now) - Tick(start)) % TWO_32;
    SameRemainder(now, start);
  }

  lemma SameRemainder(now: nat, start: nat)
    requires start <= now
    ensures (now % TWO_32 - start % TWO_32) % TWO_32 == (now - start) % TWO_32
  {
    var p, q := now / TWO_32, start / TWO_32;
    assert now - start == (now % TWO_32 - start % TWO_32) + (p - q) * TWO_32;
    AddMultiple(now % TWO_32 - start % TWO_32, p - q);
  }

  lemma AddMultiple(x: int, k: int)
    ensures (x + k * TWO_32) % TWO_32 == x % TWO_32
  {
  }

  /** After 2^32 ms without a request, the minute still seems to go on. */
  lemma NotOverAfterAllThatTime(m: Manager, start: nat)
    requires m.rapidFailTickStart == Tick(start)
    ensures !MinuteIsOver(m, start + TWO_32)
  {
    MinuteOverIff(m, start, start + TWO_32);
  }

  // ----- Runs -----

  ghost predicate IsRun(ms: seq<Manager>, acts: seq<Action>, L: nat) {
    && |ms| == |acts| + 1
    && Inv(ms[0], L)
    && forall k | 0 <= k < |acts| :: IsStep(ms[k], acts[k], ms[k + 1], L)
  }

  predicate IsStep(m: Manager, a: Action, m': Manager, L: nat) {
    Fits(m, a) && m' == Next(m, a) && (a.Get? ==> a.limit <= L)
  }

  ghost predicate InOrder(acts: seq<Action>) {
    forall i, j | 0 <= i <= j < |acts| :: acts[i].now <= acts[j].now
  }

  /** How many of the critical sections from i up to j start a process that fails. */
  ghost function Failures(ms: seq<Manager>, acts: seq<Action>, L: nat, i: nat, j: nat): nat
    requires IsRun(ms, acts, L) && j <= |acts|
  {
    if i >= j then 0
    else Failures(ms, acts, L, i, j - 1) + if IsStep(ms[j - 1], acts[j - 1], ms[j], L) &&
      FailsAt(ms[j - 1], acts[j - 1]) then 1 else 0
  }

  /** They are the starts that fail, each once. */
  lemma {:induction false} FailuresAreStarts(ms: seq<Manager>, acts: seq<Action>, L: nat, i: nat, j: nat)
    requires IsRun(ms, acts, L) && i <= j <= |acts|
    ensures Failures(ms, acts, L, i, j) == |FailedStarts(ms, acts, L, i, j)|
    decreases j
  {
    if i < j {
      FailuresAreStarts(ms, acts, L, i, j - 1);
      OneMoreStart(ms, acts, L, i, j);
    } else {
      assert FailedStarts(ms, acts, L, i, j) == {};
    }
  }

  lemma OneMoreStart(ms: seq<Manager>, acts: seq<Action>, L: nat, i: nat, j: nat)
    requires IsRun(ms, acts, L) && i < j <= |acts|
    ensures IsStep(ms[j - 1], acts[j - 1], ms[j], L)
    ensures FailedStarts(ms, acts, L, i, j)
      == FailedStarts(ms, acts, L, i, j - 1) + if FailsAt(ms[j - 1], acts[j - 1]) then {j - 1} else {}
  {
    hide Next, FailsAt, Fits;
    assert IsStep(ms[j - 1], acts[j - 1], ms[j - 1 + 1], L);
  }

  ghost function FailedStarts(ms: seq<Manager>, acts: seq<Action>, L: nat, i: nat, j: nat): set<nat>
    requires IsRun(ms, acts, L) && j <= |acts|
  {
    set k: nat | i <= k < j && IsStep(ms[k], acts[k], ms[k + 1], L) && FailsAt(ms[k], acts[k])
  }

  ghost predicate ResetAt(ms: seq<Manager>, acts: seq<Action>, L: nat, k: nat)
    requires IsRun(ms, acts, L)
  {
    k < |acts| && IsStep(ms[k], acts[k], ms[k + 1], L) && ResetsAt(ms[k], acts[k])
  }

  /** The invariant holds throughout a run; in particular the count never wraps around. */
  lemma {:induction false} RunInv(ms: seq<Manager>, acts: seq<Action>, L: nat, k: nat)
    requires IsRun(ms, acts, L) && k <= |acts|
    ensures Inv(ms[k], L)
  {
    if k > 0 {
      RunInv(ms, acts, L, k - 1);
      assert IsStep(ms[k - 1], acts[k - 1], ms[k], L);
      StepInv(ms[k - 1], acts[k - 1], L);
    }
  }

  /** Throughout a run a process stays in its place until its exit is reported or all are shut down. */
  lemma {:induction false} ProcessStaysInRun(ms: seq<Manager>, acts: seq<Action>, L: nat, i: nat, j: nat, k: nat)
    requires IsRun(ms, acts, L) && i <= j <= |acts| && k < |ms[i].slots| && ms[i].slots[k].Process?
    requires forall n | i <= n < j :: !acts[n].ShutAll? && !(acts[n].Exit? && acts[n].port == ms[i].slots[k].port)
    ensures k < |ms[j].slots| && ms[j].slots[k] == ms[i].slots[k]
    decreases j - i
  {
    if i < j {
      ProcessStaysInRun(ms, acts, L, i, j - 1, k);
      RunInv(ms, acts, L, j - 1);
      assert IsStep(ms[j - 1], acts[j - 1], ms[j], L);
      ProcessStays(ms[j - 1], acts[j - 1], k, L);
    }
  }

  /** Between two resets at most L + 1 started processes fail. */
  lemma {:induction false} WindowBound(ms: seq<Manager>, acts: seq<Action>, L: nat, i: nat, j: nat)
    requires IsRun(ms, acts, L) && i <= j <= |acts|
    requires forall k | i < k < j :: !ResetAt(ms, acts, L, k)
    ensures Failures(ms, acts, L, i, j) <= L + 1 && Failures(ms, acts, L, i, j) <= ms[j].rapidFailCount
    decreases j
  {
    RunInv(ms, acts, L, j);
    if i < j {
      WindowBound(ms, acts, L, i, j - 1);
      RunInv(ms, acts, L, j - 1);
      assert IsStep(ms[j - 1], acts[j - 1], ms[j], L);
      StepCount(ms[j - 1], acts[j - 1], L);
      if i < j - 1 { assert !ResetAt(ms, acts, L, j - 1); }
    }
  }

  lemma {:induction false} TickKept(ms: seq<Manager>, acts: seq<Action>, L: nat, r: nat, s: nat)
    requires IsRun(ms, acts, L) && r < s <= |acts| && ResetAt(ms, acts, L, r)
    requires forall k | r < k < s :: !ResetAt(ms, acts, L, k)
    ensures ms[s].rapidFailTickStart == Tick(acts[r].now)
    decreases s
  {
    RunInv(ms, acts, L, s - 1);
    assert IsStep(ms[s - 1], acts[s - 1], ms[s], L);
    StepCount(ms[s - 1], acts[s - 1], L);
    if r < s - 1 {
      assert !ResetAt(ms, acts, L, s - 1);
      TickKept(ms, acts, L, r, s - 1);
    }
  }

  /** Two resets are at least a minute apart. */
  lemma ResetsApart(ms: seq<Manager>, acts: seq<Action>, L: nat, r: nat, s: nat)
    requires IsRun(ms, acts, L) && InOrder(acts) && r < s && ResetAt(ms, acts, L, r) && ResetAt(ms, acts, L, s)
    requires forall k | r < k < s :: !ResetAt(ms, acts, L, k)
    ensures acts[s].now - acts[r].now >= 60000
  {
    TickKept(ms, acts, L, r, s);
    RunInv(ms, acts, L, s);
    assert Vacated(ms[s], acts[s].index) == ms[s];
    MinuteOverIff(ms[s], acts[r].now, acts[s].now);
  }

  /** The first reset after i and before j; j if there is none. */
  lemma {:induction false} FirstReset(ms: seq<Manager>, acts: seq<Action>, L: nat, i: nat, j: nat) returns (r: nat)
    requires IsRun(ms, acts, L) && i < j <= |acts|
    ensures i < r <= j && (r < j ==> ResetAt(ms, acts, L, r))
    ensures forall k | i < k < r :: !ResetAt(ms, acts, L, k)
    decreases j
  {
    if i + 1 == j {
      return j;
    }
    r := FirstReset(ms, acts, L, i, j - 1);
    if r == j - 1 && !ResetAt(ms, acts, L, r) {
      r := j;
    }
  }

  lemma {:induction false} FailuresJoin(ms: seq<Manager>, acts: seq<Action>, L: nat, i: nat, r: nat, j: nat)
    requires IsRun(ms, acts, L) && i <= r <= j <= |acts|
    ensures Failures(ms, acts, L, i, j) == Failures(ms, acts, L, i, r) + Failures(ms, acts, L, r, j)
    decreases j
  {
    if r < j { FailuresJoin(ms, acts, L, i, r, j - 1); }
  }

  /** In less than a minute at most 2 (L + 1) started processes fail. */
  lemma MinuteBound(ms: seq<Manager>, acts: seq<Action>, L: nat, i: nat, j: nat)
    requires IsRun(ms, acts, L) && InOrder(acts) && i < j <= |acts|
    requires acts[j - 1].now - acts[i].now < 60000
    ensures Failures(ms, acts, L, i, j) <= 2 * (L + 1)
  {
    var r := FirstReset(ms, acts, L, i, j);
    WindowBound(ms, acts, L, i, r);
    FailuresJoin(ms, acts, L, i, r, j);
    if r < j {
      var s := FirstReset(ms, acts, L, r, j);
      if s < j {
        ResetsApart(ms, acts, L, r, s);
        assert false;
      }
      WindowBound(ms, acts, L, r, j);
    }
  }

  /** The same critical section n times. */
  function Repeated(m: Manager, a: Action, n: nat): (m': Manager)
    requires Fits(m, a)
    ensures Fits(m', a)
  {
    if n == 0 then m else Next(Repeated(m, a, n - 1), a)
  }

  /** The bound is met: from a fresh count, the limit and one more starts can fail, and then none begins. */
  lemma {:induction false} LimitIsReached(m: Manager, a: Action, n: nat)
    requires a.Get? && Fits(m, a) && m.slots[a.index].Empty? && a.outcome.Fails() && a.limit < LONG_MAX
    requires m.rapidFailCount == 0 && !MinuteIsOver(m, a.now) && n <= a.limit + 1
    ensures Repeated(m, a, n) == m.(rapidFailCount := n)
    ensures FailsAt(Repeated(m, a, n), a) <==> n <= a.limit
  {
    if n > 0 {
      LimitIsReached(m, a, n - 1);
      assert m.slots[a.index := Empty] == m.slots;
    }
  }

  // ----- The object -----

  class ProcessManager {
    var rapidFailCount: int
    var rapidFailTickStart: dword
    var list: array<Slot>

    ghost function State(): Manager
      reads this, list
    {
      Manager(rapidFailCount, rapidFailTickStart, list[..])
    }

    /** The start tick is set by Initialize; the processes are made on demand. */
    constructor (processesPerApplication: nat, now: nat)
      ensures State() == Manager(0, Tick(now), seq(processesPerApplication, _ => Empty)) && fresh(list)
      ensures forall L: nat | L + 1 + processesPerApplication <= LONG_MAX :: Inv(State(), L)
    {
      rapidFailCount, rapidFailTickStart := 0, Tick(now);
      list := new Slot[processesPerApplication](_ => Empty);
      new;
      NoneLive(list[..], 0);
      assert list[..] == seq(processesPerApplication, _ => Empty);
    }

    method RapidFailsPerMinuteExceeded(limit: nat, now: nat) returns (exceeded: bool)
      modifies `rapidFailCount, `rapidFailTickStart
      ensures State() == Checked(old(State()), now) && (exceeded <==> rapidFailCount > limit)
    {
      if (Tick(now) - rapidFailTickStart) % TWO_32 >= ONE_MINUTE_IN_MILLISECONDS {
        rapidFailCount := 0;
        rapidFailTickStart := Tick(now);
      }
      exceeded := rapidFailCount > limit;
    }

    /** SERVER_PROCESS::StopProcess of the process in a slot. */
    method StopProcess(i: nat)
      requires i < list.Length && list[i].Process?
      modifies `rapidFailCount, list
      ensures rapidFailCount == Increment(old(rapidFailCount))
      ensures list[..] == old(list[..])[i := old(list[i]).(ready := false)]
    {
      list[i] := list[i].(ready := false);
      rapidFailCount := Increment(rapidFailCount);
    }

    method ShutdownProcessNoLock(port: nat)
      modifies `rapidFailCount, list
      ensures State() == ShutDown(old(State()), port, 0)
    {
      for i := 0 to list.Length
        invariant ShutDown(State(), port, i) == ShutDown(old(State()), port, 0)
      {
        ghost var was := State();
        if HasPort(list[i], port) {
          StopProcess(i);
          list[i] := Empty;
          assert State() == StoppedAt(was, i);
        }
      }
    }

    method ShutdownAllProcessesNoLock()
      modifies list
      ensures State() == Next(old(State()), ShutAll(0))
    {
      for i := 0 to list.Length
        invariant forall k | 0 <= k < i :: list[k] == Empty
      {
        list[i] := Empty;
      }
      assert list[..] == seq(list.Length, _ => Empty);
    }

    /** SERVER_PROCESS::StartProcess of a new process, with its single exit. */
    method StartProcess(index: nat, outcome: Outcome) returns (failed: bool)
      requires index < list.Length && outcome.Started? && list[index] == Process(outcome.port, false)
      modifies `rapidFailCount, list
      ensures failed == outcome.failed
      ensures rapidFailCount == if outcome.Fails() then Increment(old(rapidFailCount)) else old(rapidFailCount)
      ensures list[..] == old(list[..])[index := Process(outcome.port, !outcome.Fails())]
    {
      failed := outcome.failed;
      list[index] := list[index].(ready := outcome.ready);
      if failed || !list[index].ready {
        StopProcess(index);
      }
    }

    /** The critical section of GetProcess. */
    method GetProcess(now: nat, index: nat, limit: nat, outcome: Outcome) returns (ok: bool)
      requires index < list.Length
      modifies this, list
      ensures list == old(list) && State() == Next(old(State()), Get(now, index, limit, outcome))
      ensures ok <==> list[index].Process? && list[index].ready
      ensures old(list[index].Process? && list[index].ready) ==> ok && State() == old(State())
    {
      ok := false;
      if list[index].Process? {
        if !list[index].ready {
          ShutdownProcessNoLock(list[index].port);
        } else {
          return true;
        }
      }
      var exceeded := RapidFailsPerMinuteExceeded(limit, now);
      if !exceeded {
        ok := MakeProcess(index, outcome);
      }
      if !ok {
        list[index] := Empty;
      }
    }

    /** The part of GetProcess that makes and starts a process. */
    method MakeProcess(index: nat, outcome: Outcome) returns (ok: bool)
      requires index < list.Length
      modifies `rapidFailCount, list
      ensures ok <==> outcome.Started? && !outcome.Fails()
      ensures ok ==> State() == Placed(old(State()), index, outcome)
      ensures !ok ==> State().(slots := State().slots[index := Empty]) == Placed(old(State()), index, outcome)
    {
      list[index] := Process(if outcome.Started? then outcome.port else 0, false);
      if outcome.NotInitialized? {
        return false;
      }
      var failed := StartProcess(index, outcome);
      ok := !failed && list[index].ready;
    }
  }
}
