/**
 The debounce decorator as a timer protocol. A call of the wrapper is one step; a timer's callback is two, its begin
 (when the decorated function runs) and its end (when the handle is cleared, unless the function raised).
 */
module Debounce {
  import opened Prelude

  datatype Timer = Timer(deadline: real, args: string)

  datatype Call = Call(at: real, args: string)

  /** An execution of the decorated function; `served` is how many calls had been made by then. */
  datatype Execution = Execution(at: real, args: string, served: nat)

  /** `handle` is `func.timer`; `live` are the started timers that are neither cancelled nor fired; `running` are the
      timers whose callback has begun and not ended. The calls and executions so far are kept as history. */
  datatype State = State(now: real, handle: Option<nat>, live: map<nat, Timer>, running: set<nat>, next: nat,
                         calls: seq<Call>, runs: seq<Execution>)

  const INITIAL := State(0.0, None, map[], {}, 0, [], [])

  datatype Step = Tick(dt: real) | CallWrapper(args: string) | Begin(id: nat) | Finish(id: nat, raised: bool)

  predicate Enabled(s: State, step: Step) {
    match step
    case Tick(dt) => dt >= 0.0
    case CallWrapper(_) => true
    case Begin(id) => id in s.live && s.now >= s.live[id].deadline
    case Finish(id, _) => id in s.running
  }

  function Apply(seconds: real, s: State, step: Step): State
    requires Enabled(s, step)
  {
    match step
    case Tick(dt) => s.(now := s.now + dt)
    case CallWrapper(args) =>
      var kept := if s.handle.Some? then s.live - {s.handle.value} else s.live;
      s.(live := kept[s.next := Timer(s.now + seconds, args)], handle := Some(s.next), next := s.next + 1,
         calls := s.calls + [Call(s.now, args)])
    case Begin(id) =>
      s.(live := s.live - {id}, running := s.running + {id},
         runs := s.runs + [Execution(s.now, s.live[id].args, |s.calls|)])
    case Finish(id, raised) =>
      s.(running := s.running - {id}, handle := if raised then s.handle else None)
  }

  /** The decorated function's timer field and the timer threads behind it. */
  class Debouncer {
    const seconds: real
    var handle: Option<nat>
    var live: map<nat, Timer>
    var running: set<nat>
    var next: nat
    var now: real
    ghost var calls: seq<Call>
    ghost var runs: seq<Execution>

    ghost function Value(): State
      reads this
    {
      State(now, handle, live, running, next, calls, runs)
    }

    constructor (seconds: real)
      ensures Value() == INITIAL && this.seconds == seconds
    {
      this.seconds := seconds;
      handle, live, running, next, now := None, map[], {}, 0, 0.0;
      calls, runs := [], [];
    }

    method Wait(dt: real)
      requires dt >= 0.0
      modifies this`now
      ensures Value() == Apply(seconds, old(Value()), Tick(dt))
    {
      now := now + dt;
    }

    method Wrapper(args: string)
      modifies this`handle, this`live, this`next, this`calls
      ensures Value() == Apply(seconds, old(Value()), CallWrapper(args))
    {
      if handle.Some? {
        live := live - {handle.value};
      }
      handle := Some(next);
      live := live[next := Timer(now + seconds, args)];
      next := next + 1;
      calls := calls + [Call(now, args)];
    }

    method BeginCallback(id: nat) returns (args: string)
      requires Enabled(Value(), Begin(id))
      modifies this`live, this`running, this`runs
      ensures Value() == Apply(seconds, old(Value()), Begin(id)) && args == old(live[id].args)
    {
      args := live[id].args;
      live := live - {id};
      running := running + {id};
      runs := runs + [Execution(now, args, |calls|)];
    }

    method EndCallback(id: nat, raised: bool)
      requires Enabled(Value(), Finish(id, raised))
      modifies this`running, this`handle
      ensures Value() == Apply(seconds, old(Value()), Finish(id, raised))
    {
      running := running - {id};
      if !raised {
        handle := None;
      }
    }
  }

  // ---------------------------------------------------------------- runs

  /** A call that cannot cancel some live timer, because the handle does not name it. */
  predicate Orphans(s: State, step: Step) {
    step.CallWrapper? && exists id :: id in s.live && s.handle != Some(id)
  }

  predicate Possible(seconds: real, s: State, steps: seq<Step>)
    decreases |steps|
  {
    steps == [] || (Enabled(s, steps[0]) && Possible(seconds, Apply(seconds, s, steps[0]), steps[1..]))
  }

  function Run(seconds: real, s: State, steps: seq<Step>): State
    requires Possible(seconds, s, steps)
    decreases |steps|
  {
    if steps == [] then s else Run(seconds, Apply(seconds, s, steps[0]), steps[1..])
  }

  predicate NoOrphan(seconds: real, s: State, steps: seq<Step>)
    requires Possible(seconds, s, steps)
    decreases |steps|
  {
    steps == [] || (!Orphans(s, steps[0]) && NoOrphan(seconds, Apply(seconds, s, steps[0]), steps[1..]))
  }

  /** At most one timer is live in every state of the run. */
  predicate OneLiveThroughout(seconds: real, s: State, steps: seq<Step>)
    requires Possible(seconds, s, steps)
    decreases |steps|
  {
    |s.live| <= 1 && (steps == [] || OneLiveThroughout(seconds, Apply(seconds, s, steps[0]), steps[1..]))
  }

  // ---------------------------------------------------------------- invariant

  function Served(s: State): nat {
    if s.runs == [] then 0 else s.runs[|s.runs| - 1].served
  }

  /** Timers are numbered in order. */
  predicate Numbered(s: State) {
    && (forall id :: id in s.live ==> id < s.next)
    && (s.handle.Some? ==> s.handle.value < s.next)
  }

  /** At most one timer is live. */
  ghost predicate OneTimer(s: State) {
    Numbered(s) && forall a, b :: a in s.live && b in s.live ==> a == b
  }

  /** Calls are in time order and not in the future. */
  ghost predicate CallsInOrder(s: State) {
    && (forall i :: 0 <= i < |s.calls| ==> s.calls[i].at <= s.now)
    && (forall i, j :: 0 <= i < j < |s.calls| ==> s.calls[i].at <= s.calls[j].at)
  }

  /** There is a live timer exactly when the last call has not been served, and it carries that call. */
  ghost predicate Scheduled(seconds: real, s: State) {
    && Served(s) <= |s.calls|
    && (Served(s) < |s.calls| <==> s.live != map[])
    && (forall id :: id in s.live ==>
          s.calls != [] && s.live[id] == Timer(s.calls[|s.calls| - 1].at + seconds, s.calls[|s.calls| - 1].args))
  }

  /** An execution serves the last call made before it, `seconds` after it, and all other calls come earlier than that
      or not before the execution. */
  ghost predicate Proper(seconds: real, calls: seq<Call>, r: Execution) {
    && 0 < r.served <= |calls|
    && r.args == calls[r.served - 1].args
    && (forall i :: 0 <= i < r.served ==> calls[i].at + seconds <= r.at)
    && (forall i :: r.served <= i < |calls| ==> r.at <= calls[i].at)
  }

  ghost predicate RunsProper(seconds: real, s: State) {
    && (forall i :: 0 <= i < |s.runs| ==> Proper(seconds, s.calls, s.runs[i]) && s.runs[i].at <= s.now)
    && (forall i, j :: 0 <= i < j < |s.runs| ==> s.runs[i].served < s.runs[j].served)
  }

  ghost predicate Safe(seconds: real, s: State) {
    OneTimer(s) && CallsInOrder(s) && Scheduled(seconds, s) && RunsProper(seconds, s)
  }

  lemma StepKeepsOneTimer(seconds: real, s: State, step: Step)
    requires OneTimer(s) && Enabled(s, step) && !Orphans(s, step)
    ensures OneTimer(Apply(seconds, s, step))
  {
  }

  lemma StepKeepsScheduled(seconds: real, s: State, step: Step)
    requires OneTimer(s) && Scheduled(seconds, s) && Enabled(s, step) && !Orphans(s, step)
    ensures Scheduled(seconds, Apply(seconds, s, step))
  {
    var after := Apply(seconds, s, step);
    match step
    case Tick(_) =>
    case CallWrapper(args) =>
      assert s.next in after.live;
      assert forall id :: id in after.live ==> id == s.next;
    case Begin(id) =>
      assert forall j :: j in s.live ==> j == id;
      assert after.live == map[];
    case Finish(_, _) =>
  }

  /** An execution that begins now is proper and serves more calls than any before it. */
  lemma BeginIsProper(seconds: real, s: State, id: nat)
    requires Safe(seconds, s) && Enabled(s, Begin(id)) && seconds >= 0.0
    ensures Proper(seconds, s.calls, Execution(s.now, s.live[id].args, |s.calls|))
    ensures forall i :: 0 <= i < |s.runs| ==> s.runs[i].served < |s.calls|
  {
    var n := |s.calls|;
    assert s.live != map[];
    assert s.live[id] == Timer(s.calls[n - 1].at + seconds, s.calls[n - 1].args);
    forall i | 0 <= i < n ensures s.calls[i].at + seconds <= s.now {
      assert i == n - 1 || s.calls[i].at <= s.calls[n - 1].at;
    }
    forall i | 0 <= i < |s.runs| ensures s.runs[i].served < n {
      assert i == |s.runs| - 1 || s.runs[i].served < s.runs[|s.runs| - 1].served;
    }
  }

  lemma StepKeepsProper(seconds: real, s: State, step: Step)
    requires Safe(seconds, s) && Enabled(s, step) && !Orphans(s, step) && seconds >= 0.0
    ensures RunsProper(seconds, Apply(seconds, s, step))
  {
    var after := Apply(seconds, s, step);
    forall i | 0 <= i < |s.runs| ensures Proper(seconds, after.calls, s.runs[i]) {
      assert Proper(seconds, s.calls, s.runs[i]);
    }
    if step.Begin? {
      BeginIsProper(seconds, s, step.id);
    }
  }

  lemma StepKeepsSafe(seconds: real, s: State, step: Step)
    requires Safe(seconds, s) && Enabled(s, step) && !Orphans(s, step) && seconds >= 0.0
    ensures Safe(seconds, Apply(seconds, s, step))
  {
    StepKeepsOneTimer(seconds, s, step);
    StepKeepsScheduled(seconds, s, step);
    StepKeepsProper(seconds, s, step);
  }

  lemma {:induction false} RunKeepsSafe(seconds: real, s: State, steps: seq<Step>)
    requires Safe(seconds, s) && seconds >= 0.0 && Possible(seconds, s, steps) && NoOrphan(seconds, s, steps)
    ensures Safe(seconds, Run(seconds, s, steps))
    decreases |steps|
  {
    if steps != [] {
      StepKeepsSafe(seconds, s, steps[0]);
      RunKeepsSafe(seconds, Apply(seconds, s, steps[0]), steps[1..]);
    }
  }

  // ---------------------------------------------------------------- main results

  lemma LiveCount(live: map<nat, Timer>)
    ensures |live| <= 1 <==> forall a, b :: a in live && b in live ==> a == b
  {
    if a, b :| a in live && b in live && a != b {
      assert |live.Keys - {a, b}| == |live.Keys| - 2;
      assert |live| == |live.Keys|;
    } else if live != map[] {
      var id :| id in live;
      assert live.Keys == {id};
      assert |live| == |live.Keys|;
    }
  }

  /** An orphaning call leaves two live timers. */
  lemma OrphanMakesTwo(seconds: real, s: State, step: Step)
    requires Numbered(s) && Enabled(s, step) && Orphans(s, step)
    ensures |Apply(seconds, s, step).live| > 1
  {
    var id :| id in s.live && s.handle != Some(id);
    var after := Apply(seconds, s, step);
    assert id in after.live && s.next in after.live && id != s.next;
    LiveCount(after.live);
  }

  /** At most one timer is live throughout a run exactly when the run has no orphaning call. */
  lemma {:induction false} OneLiveExactly(seconds: real, s: State, steps: seq<Step>)
    requires OneTimer(s) && Possible(seconds, s, steps)
    ensures OneLiveThroughout(seconds, s, steps) <==> NoOrphan(seconds, s, steps)
    decreases |steps|
  {
    LiveCount(s.live);
    if steps == [] {
    } else if Orphans(s, steps[0]) {
      OrphanMakesTwo(seconds, s, steps[0]);
    } else {
      StepKeepsOneTimer(seconds, s, steps[0]);
      OneLiveExactly(seconds, Apply(seconds, s, steps[0]), steps[1..]);
    }
  }

  /** In any run without an orphaning call, however long callbacks take and whether or not they raise: executions are at
      least `seconds` apart, and each comes after `seconds` without calls, with the arguments of the last call. The runs
      without an orphaning call are exactly those in which never two timers are live. */
  lemma DebounceSafety(seconds: real, steps: seq<Step>)
    requires seconds >= 0.0 && Possible(seconds, INITIAL, steps)
    ensures NoOrphan(seconds, INITIAL, steps) <==> OneLiveThroughout(seconds, INITIAL, steps)
    ensures NoOrphan(seconds, INITIAL, steps) ==>
              var s := Run(seconds, INITIAL, steps);
              && (forall i, j :: 0 <= i < j < |s.runs| ==> s.runs[i].at + seconds <= s.runs[j].at)
              && (forall i :: 0 <= i < |s.runs| ==> Proper(seconds, s.calls, s.runs[i]))
  {
    OneLiveExactly(seconds, INITIAL, steps);
    if NoOrphan(seconds, INITIAL, steps) {
      RunKeepsSafe(seconds, INITIAL, steps);
      Spaced(seconds, Run(seconds, INITIAL, steps));
    }
  }

  lemma Spaced(seconds: real, s: State)
    requires Safe(seconds, s)
    ensures forall i, j :: 0 <= i < j < |s.runs| ==> s.runs[i].at + seconds <= s.runs[j].at
  {
    forall i, j | 0 <= i < j < |s.runs| ensures s.runs[i].at + seconds <= s.runs[j].at {
      assert Proper(seconds, s.calls, s.runs[i]) && Proper(seconds, s.calls, s.runs[j]);
      var c := s.runs[i].served;
      assert s.runs[i].at <= s.calls[c].at && s.calls[c].at + seconds <= s.runs[j].at;
    }
  }

  /** Delivery: a call that has not been served has a live timer due `seconds` after the last call, so once calls have
      stopped for that long and no due timer is left waiting, the last call has been executed. */
  lemma DebounceDelivers(seconds: real, steps: seq<Step>)
    requires seconds >= 0.0 && Possible(seconds, INITIAL, steps) && NoOrphan(seconds, INITIAL, steps)
    ensures var s := Run(seconds, INITIAL, steps);
            && (Served(s) < |s.calls| ==>
                  exists id :: id in s.live
                    && s.live[id] == Timer(s.calls[|s.calls| - 1].at + seconds, s.calls[|s.calls| - 1].args))
            && (s.calls != [] && s.calls[|s.calls| - 1].at + seconds <= s.now
                && (forall id :: id in s.live ==> !Enabled(s, Begin(id))) ==>
                  s.runs != [] && s.runs[|s.runs| - 1].served == |s.calls|
                  && s.runs[|s.runs| - 1].args == s.calls[|s.calls| - 1].args)
  {
    var s := Run(seconds, INITIAL, steps);
    RunKeepsSafe(seconds, INITIAL, steps);
    if s.live != map[] {
      var id :| id in s.live;
    }
    if s.runs != [] {
      assert Proper(seconds, s.calls, s.runs[|s.runs| - 1]);
    }
  }

  /** The handle names every live timer. */
  predicate Named(s: State) {
    forall id :: id in s.live ==> s.handle == Some(id)
  }

  /** Only a callback that ends normally can make a later call orphan a timer: when every callback raises, which leaves
      the handle alone, no call does, and from the start never two timers are live. */
  lemma {:induction false} RaisingNeverOrphans(seconds: real, s: State, steps: seq<Step>)
    requires Named(s) && Numbered(s) && Possible(seconds, s, steps)
    requires forall step :: step in steps && step.Finish? ==> step.raised
    ensures NoOrphan(seconds, s, steps) && OneLiveThroughout(seconds, s, steps)
    decreases |steps|
  {
    if steps == [] {
      OneLiveExactly(seconds, s, steps);
    } else {
      assert steps[0] in steps;
      RaisingNeverOrphans(seconds, Apply(seconds, s, steps[0]), steps[1..]);
      OneLiveExactly(seconds, s, steps);
    }
  }

  lemma {:induction false} RunConcat(seconds: real, s: State, a: seq<Step>, b: seq<Step>)
    requires Possible(seconds, s, a) && Possible(seconds, Run(seconds, s, a), b)
    ensures Possible(seconds, s, a + b) && Run(seconds, s, a + b) == Run(seconds, Run(seconds, s, a), b)
    decreases |a|
  {
    if a == [] {
      assert a + b == b;
    } else {
      assert (a + b)[1..] == a[1..] + b;
      RunConcat(seconds, Apply(seconds, s, a[0]), a[1..], b);
    }
  }

  lemma ThreeSteps(seconds: real, s: State, x: Step, y: Step, z: Step)
    requires Enabled(s, x) && Enabled(Apply(seconds, s, x), y)
    requires Enabled(Apply(seconds, Apply(seconds, s, x), y), z)
    ensures Possible(seconds, s, [x, y, z])
    ensures Run(seconds, s, [x, y, z]) == Apply(seconds, Apply(seconds, Apply(seconds, s, x), y), z)
  {
    var s2 := Apply(seconds, Apply(seconds, s, x), y);
    assert [z][1..] == [] && [y, z][1..] == [z] && [x, y, z][1..] == [y, z];
    assert Run(seconds, s2, [z]) == Run(seconds, Apply(seconds, s2, z), []);
    assert Possible(seconds, Apply(seconds, s2, z), []);
  }

  const FIRST := [CallWrapper("a"), Tick(1.0), Begin(0)]
  const SECOND := [CallWrapper("b"), Finish(0, false), CallWrapper("c")]
  const THIRD := [Tick(1.0), Begin(1), Begin(2)]

  lemma FirstCallFires()
    ensures Possible(1.0, INITIAL, FIRST)
    ensures Run(1.0, INITIAL, FIRST)
         == State(1.0, Some(0), map[], {0}, 1, [Call(0.0, "a")], [Execution(1.0, "a", 1)])
  {
    ThreeSteps(1.0, INITIAL, FIRST[0], FIRST[1], FIRST[2]);
  }

  /** The callback ends after the call "b" has replaced the handle, so the call "c" cancels nothing. */
  lemma CallsAroundFinish(s: State)
    requires s.live == map[] && s.handle == Some(0) && s.running == {0} && s.next == 1
    ensures Possible(1.0, s, SECOND)
    ensures var t := Run(1.0, s, SECOND);
            && t.now == s.now && t.runs == s.runs
            && t.live == map[1 := Timer(s.now + 1.0, "b"), 2 := Timer(s.now + 1.0, "c")]
  {
    ThreeSteps(1.0, s, SECOND[0], SECOND[1], SECOND[2]);
  }

  lemma BothFire(s: State)
    requires s.live == map[1 := Timer(s.now + 1.0, "b"), 2 := Timer(s.now + 1.0, "c")]
    ensures Possible(1.0, s, THIRD)
    ensures var t := Run(1.0, s, THIRD);
            && |t.runs| == |s.runs| + 2
            && t.runs[|s.runs|].at == s.now + 1.0 && t.runs[|s.runs| + 1].at == s.now + 1.0
  {
    ThreeSteps(1.0, s, THIRD[0], THIRD[1], THIRD[2]);
  }

  /** The callback's end clears the handle of a call that arrived meanwhile: the next call orphans that timer, and two
      executions follow with no time between them. */
  lemma CallDuringCallback()
    ensures Possible(1.0, INITIAL, FIRST + SECOND + THIRD) && !NoOrphan(1.0, INITIAL, FIRST + SECOND + THIRD)
    ensures var s := Run(1.0, INITIAL, FIRST + SECOND + THIRD); |s.runs| == 3 && s.runs[1].at == s.runs[2].at
  {
    FirstCallFires();
    CallsAroundFinish(Run(1.0, INITIAL, FIRST));
    RunConcat(1.0, INITIAL, FIRST, SECOND);
    BothFire(Run(1.0, INITIAL, FIRST + SECOND));
    RunConcat(1.0, INITIAL, FIRST + SECOND, THIRD);
    NotSpaced(FIRST + SECOND + THIRD);
  }

  /** A run whose executions are not spaced has an orphaning call. */
  lemma NotSpaced(steps: seq<Step>)
    requires Possible(1.0, INITIAL, steps)
    requires var s := Run(1.0, INITIAL, steps); |s.runs| == 3 && s.runs[1].at == s.runs[2].at
    ensures !NoOrphan(1.0, INITIAL, steps)
  {
    if NoOrphan(1.0, INITIAL, steps) {
      DebounceSafety(1.0, steps);
    }
  }
}
