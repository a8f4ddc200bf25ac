/**
 * The single entry point `run_lisflood` of the LISFLOOD-FP driver: it builds
 * a mutable argument vector, initialises the engine, finalises it at once when
 * initialisation fails, and otherwise prepares the solver and advances it one
 * step per iteration while `Solverptr->t < Solverptr->Sim_Time`, printing a
 * heartbeat every 100 steps, and finalises once at the end.
 *
 * The engine is external. It is modelled as an object whose behaviour is data
 * fixed when it is created: the code `init` returns, the clock it sets up, and
 * the clock readings after each successive step (its "clock script"). Nothing
 * is assumed about those readings: the target may move and time may stand
 * still or fall. The script is a finite prefix of the engine's behaviour, so
 * when it ends while the clock is still short of the target the model stops
 * and reports the run as unfinished, where `run_lisflood` goes on stepping and
 * never reaches `final()` unless the clock catches up. A ghost phase turns
 * the engine's lifecycle into preconditions of its entry points, and a ghost
 * log records every call the driver makes.
 */
module LisfloodDriver {
  import opened Wrappers

  /** One call into the engine, as the ghost log records it. */
  datatype Call =
    | InitCall(argc: int, argv: seq<string>)
    | PrepareCall
    | StepCall
    | FinalCall

  /** Where the engine is in its lifecycle. */
  datatype Phase = Fresh | InitFailed | Initialized | Prepared | Finalized

  /** The engine's shared clock record, read through `Solverptr`. */
  datatype Clock = Clock(t: real, simTime: real, tstep: real)

  /** One line the driver prints, with the values it formats. */
  datatype StatusLine =
    | ModeBanner
    | ParameterFile(path: string)
    | InitFailedLine(code: int)
    | LoopStart(t: real, simTime: real)
    | Heartbeat(iter: int, t: real, simTime: real, tstep: real)

  const ProgramName: string := "lisflood"
  const HeartbeatEvery: int := 100

  /** The clock record after `k` steps: the prepared clock, then the script's readings. */
  function ClockAfter(t0: real, target: real, tstep0: real, script: seq<Clock>, k: nat): Clock
    requires k <= |script|
  {
    if k == 0 then Clock(t0, target, tstep0) else script[k - 1]
  }

  /** The loop condition `Solverptr->t < Solverptr->Sim_Time` no longer holds. */
  predicate Done(c: Clock) {
    !(c.t < c.simTime)
  }

  /**
   * The number of steps the loop runs once `k` steps are done: the first
   * reading from `k` on that fails the loop condition ends the loop, and there
   * is none when every later reading of the script is still short of its target.
   */
  function StepsFrom(t0: real, target: real, tstep0: real, script: seq<Clock>, k: nat): (n: Option<nat>)
    requires k <= |script|
    ensures n.Some? ==>
      && k <= n.value <= |script|
      && Done(ClockAfter(t0, target, tstep0, script, n.value))
      && forall j :: k <= j < n.value ==> !Done(ClockAfter(t0, target, tstep0, script, j))
    ensures n.None? ==> forall j :: k <= j <= |script| ==> !Done(ClockAfter(t0, target, tstep0, script, j))
    decreases |script| - k
  {
    if Done(ClockAfter(t0, target, tstep0, script, k)) then Some(k)
    else if k == |script| then None
    else StepsFrom(t0, target, tstep0, script, k + 1)
  }

  /** The number of steps of a whole run, if the script gets the clock to its target. */
  function StepCount(t0: real, target: real, tstep0: real, script: seq<Clock>): Option<nat> {
    StepsFrom(t0, target, tstep0, script, 0)
  }

  /** The steps the driver has taken when the loop ends or the script runs out. */
  function StepsTaken(t0: real, target: real, tstep0: real, script: seq<Clock>): (n: nat)
    ensures n <= |script|
  {
    match StepCount(t0, target, tstep0, script)
    case Some(n) => n
    case None => |script|
  }

  /** A run finishes exactly when some reading of the prepared clock or the script fails the loop condition. */
  lemma FinishesIff(t0: real, target: real, tstep0: real, script: seq<Clock>)
    ensures StepCount(t0, target, tstep0, script).Some?
        <==> exists j :: 0 <= j <= |script| && Done(ClockAfter(t0, target, tstep0, script, j))
  {
    var n := StepCount(t0, target, tstep0, script);
    if n.Some? {
      assert Done(ClockAfter(t0, target, tstep0, script, n.value));
    }
  }

  /** `n` consecutive step calls. */
  function Steps(n: nat): (calls: seq<Call>)
    ensures |calls| == n
    ensures forall i :: 0 <= i < n ==> calls[i] == StepCall
  {
    if n == 0 then [] else Steps(n - 1) + [StepCall]
  }

  /** The arguments `init` sees, as the characters before each terminating NUL. */
  function ArgvText(path: string): seq<string> {
    [ProgramName, path]
  }

  /**
   * The call log of a run whose `init` returned `code`: on success `n` steps
   * follow the preparation, and `final` comes last only when the loop ended.
   */
  function RunLog(path: string, code: int, n: nat, finished: bool): seq<Call> {
    if code != 0 then [InitCall(2, ArgvText(path)), FinalCall]
    else [InitCall(2, ArgvText(path)), PrepareCall] + Steps(n) + (if finished then [FinalCall] else [])
  }

  /** The heartbeat that the `iter`-th step prints, or nothing. */
  predicate IsHeartbeat(iter: int) {
    iter % HeartbeatEvery == 0
  }

  /** The heartbeat lines printed by steps 1 to `n`. */
  function Heartbeats(script: seq<Clock>, n: nat): seq<StatusLine>
    requires n <= |script|
  {
    if n == 0 then []
    else
      Heartbeats(script, n - 1)
      + (if IsHeartbeat(n) then [Heartbeat(n, script[n - 1].t, script[n - 1].simTime, script[n - 1].tstep)] else [])
  }

  /** Everything the driver prints on a run. */
  function RunOutput(path: string, code: int, t0: real, simTime: real, script: seq<Clock>, n: nat): seq<StatusLine>
    requires n <= |script|
  {
    [ModeBanner, ParameterFile(path)]
    + if code != 0 then [InitFailedLine(code)]
      else [LoopStart(t0, simTime)] + Heartbeats(script, n)
  }

  function Count(log: seq<Call>, c: Call): nat {
    if log == [] then 0 else Count(log[..|log| - 1], c) + (if log[|log| - 1] == c then 1 else 0)
  }

  lemma {:induction false} CountConcat(a: seq<Call>, b: seq<Call>, c: Call)
    ensures Count(a + b, c) == Count(a, c) + Count(b, c)
    decreases |b|
  {
    if b == [] {
      assert a + b == a;
    } else {
      assert (a + b)[..|a + b| - 1] == a + b[..|b| - 1];
      CountConcat(a, b[..|b| - 1], c);
    }
  }

  lemma {:induction false} CountSteps(n: nat, c: Call)
    ensures Count(Steps(n), c) == if c == StepCall then n else 0
  {
    if n > 0 {
      assert Steps(n)[..n - 1] == Steps(n - 1);
      CountSteps(n - 1, c);
    }
  }

  /**
   * Whatever `init` returns, a run calls `init` exactly once and first. It
   * calls `final` once and last after a failed `init` or a loop that ended,
   * and never while the loop is still running. It prepares once only after a
   * successful `init`, before every step, and steps `n` times on success and
   * never on failure.
   */
  lemma RunLogProtocol(path: string, code: int, n: nat, finished: bool)
    ensures var log := RunLog(path, code, n, finished);
      && log[0] == InitCall(2, [ProgramName, path])
      && Count(log, FinalCall) == (if code != 0 || finished then 1 else 0)
      && (code != 0 || finished ==> log[|log| - 1] == FinalCall)
      && Count(log, InitCall(2, [ProgramName, path])) == 1
      && Count(log, PrepareCall) == (if code == 0 then 1 else 0)
      && Count(log, StepCall) == (if code == 0 then n else 0)
      && (forall i :: 0 <= i < |log| && log[i] == StepCall ==> code == 0 && log[1] == PrepareCall && 1 < i)
  {
    var init := InitCall(2, [ProgramName, path]);
    if code != 0 {
      forall c | c in {init, PrepareCall, StepCall, FinalCall} {
        CountPair(init, FinalCall, c);
      }
    } else {
      CountSuccessLog(path, n, finished, FinalCall);
      CountSuccessLog(path, n, finished, init);
      CountSuccessLog(path, n, finished, PrepareCall);
      CountSuccessLog(path, n, finished, StepCall);
    }
  }

  lemma CountPair(a: Call, b: Call, c: Call)
    ensures Count([a, b], c) == (if a == c then 1 else 0) + (if b == c then 1 else 0)
  {
    assert [a, b][..1] == [a];
    assert [a][..0] == [];
    assert Count([a], c) == (if a == c then 1 else 0);
  }

  lemma CountSuccessLog(path: string, n: nat, finished: bool, c: Call)
    ensures var init := InitCall(2, [ProgramName, path]);
      Count(RunLog(path, 0, n, finished), c)
      == (if c == init then 1 else 0) + (if c == PrepareCall then 1 else 0)
         + (if c == StepCall then n else 0) + (if c == FinalCall && finished then 1 else 0)
  {
    var init := InitCall(2, [ProgramName, path]);
    var tail: seq<Call> := if finished then [FinalCall] else [];
    CountConcat([init, PrepareCall] + Steps(n), tail, c);
    CountConcat([init, PrepareCall], Steps(n), c);
    CountConcat([init], [PrepareCall], c);
    CountSteps(n, c);
    assert [init] + [PrepareCall] == [init, PrepareCall];
    assert [init][..0] == [] && [FinalCall][..0] == [] && [PrepareCall][..0] == [];
  }

  /** The `k`-th heartbeat of a run reports step `100 * (k + 1)`, and steps 1 to `n` print `n / 100` of them. */
  lemma {:induction false} HeartbeatsAreMultiples(script: seq<Clock>, n: nat)
    requires n <= |script|
    ensures |Heartbeats(script, n)| == n / HeartbeatEvery
    ensures forall k :: 0 <= k < |Heartbeats(script, n)| ==>
      var iter := HeartbeatEvery * (k + 1);
      Heartbeats(script, n)[k] == Heartbeat(iter, script[iter - 1].t, script[iter - 1].simTime, script[iter - 1].tstep)
  {
    if n > 0 {
      HeartbeatsAreMultiples(script, n - 1);
    }
  }

  /** A heartbeat is printed after step `iter` (counted from 1) exactly when `iter` is a positive multiple of 100. */
  lemma HeartbeatIff(script: seq<Clock>, n: nat, iter: int)
    requires n <= |script|
    requires 1 <= iter <= |script|
    ensures (exists k :: 0 <= k < |Heartbeats(script, n)| && Heartbeats(script, n)[k] == Heartbeat(iter, script[iter - 1].t, script[iter - 1].simTime, script[iter - 1].tstep))
        <==> (1 <= iter <= n && iter % HeartbeatEvery == 0)
  {
    HeartbeatsAreMultiples(script, n);
    if 1 <= iter <= n && iter % HeartbeatEvery == 0 {
      var k := iter / HeartbeatEvery - 1;
      assert Heartbeats(script, n)[k] == Heartbeat(iter, script[iter - 1].t, script[iter - 1].simTime, script[iter - 1].tstep);
    }
  }

  /** When only the last reading of the script fails the loop condition, the loop runs the whole script. */
  lemma {:induction false} StepsRunWholeScript(t0: real, target: real, tstep0: real, script: seq<Clock>, k: nat)
    requires k <= |script|
    requires Done(ClockAfter(t0, target, tstep0, script, |script|))
    requires forall j :: k <= j < |script| ==> !Done(ClockAfter(t0, target, tstep0, script, j))
    ensures StepsFrom(t0, target, tstep0, script, k) == Some(|script|)
    decreases |script| - k
  {
    if k < |script| {
      StepsRunWholeScript(t0, target, tstep0, script, k + 1);
    }
  }

  /** A clock that is already at or past the target when the loop starts: no step is taken. */
  lemma NoStepsWhenAlreadyDone(t0: real, target: real, tstep0: real, script: seq<Clock>)
    requires t0 >= target
    ensures StepCount(t0, target, tstep0, script) == Some(0)
    ensures Heartbeats(script, 0) == []
  {
  }

  /**
   * An engine whose steps leave the clock where it was (a time step of 0)
   * never ends the loop, however long its script: `final()` is not reached.
   */
  lemma StalledClockNeverFinishes(t0: real, target: real, tstep0: real, script: seq<Clock>)
    requires t0 < target
    requires forall k :: 0 <= k < |script| ==> script[k] == Clock(t0, target, 0.0)
    ensures StepCount(t0, target, tstep0, script) == None
    ensures StepsTaken(t0, target, tstep0, script) == |script|
  {
    forall j | 0 <= j <= |script|
      ensures !Done(ClockAfter(t0, target, tstep0, script, j))
    {
      if j > 0 {
        assert ClockAfter(t0, target, tstep0, script, j) == script[j - 1];
      }
    }
    FinishesIff(t0, target, tstep0, script);
  }

  /**
   * An engine that moves the target ahead of the clock at every step never
   * ends the loop either, even though its clock advances.
   */
  lemma RecedingTargetNeverFinishes(t0: real, target: real, tstep0: real, script: seq<Clock>)
    requires t0 < target
    requires forall k :: 0 <= k < |script| ==> script[k].t < script[k].simTime
    ensures StepCount(t0, target, tstep0, script) == None
  {
    forall j | 0 <= j <= |script|
      ensures !Done(ClockAfter(t0, target, tstep0, script, j))
    {
      if j > 0 {
        assert ClockAfter(t0, target, tstep0, script, j) == script[j - 1];
      }
    }
    FinishesIff(t0, target, tstep0, script);
  }

  /** A clock from 0 to 250 in steps of 2.5: 100 steps, one heartbeat, at step 100 and time 250. */
  lemma UniformStepsOfTwoAndAHalf(script: seq<Clock>)
    requires |script| == 100
    requires forall k :: 0 <= k < 100 ==> script[k] == Clock((k + 1) as real * 2.5, 250.0, 2.5)
    ensures StepCount(0.0, 250.0, 2.5, script) == Some(100)
    ensures Heartbeats(script, 100) == [Heartbeat(100, 250.0, 250.0, 2.5)]
  {
    forall j | 0 <= j < 100
      ensures !Done(ClockAfter(0.0, 250.0, 2.5, script, j))
    {
      if j > 0 {
        assert ClockAfter(0.0, 250.0, 2.5, script, j) == script[j - 1];
      }
    }
    assert ClockAfter(0.0, 250.0, 2.5, script, 100) == script[99];
    StepsRunWholeScript(0.0, 250.0, 2.5, script, 0);
    HeartbeatsAreMultiples(script, 100);
  }

  /** A heap string: the characters of a `std::string` followed by its terminating NUL. */
  ghost function CString(s: array<char>): string
    reads s
  {
    if s.Length > 0 && s[s.Length - 1] == '\0' then s[..s.Length - 1] else s[..]
  }

  /** The strings an argument vector points to. */
  ghost function ArgvContents(argv: seq<array<char>>): (args: seq<string>)
    reads set i | 0 <= i < |argv| :: argv[i]
    ensures |args| == |argv|
  {
    if argv == [] then [] else ArgvContents(argv[..|argv| - 1]) + [CString(argv[|argv| - 1])]
  }

  lemma ArgvContentsPair(argv: seq<array<char>>)
    requires |argv| == 2
    ensures ArgvContents(argv) == [CString(argv[0]), CString(argv[1])]
  {
    assert argv[..1][..0] == [];
  }

  class Engine {
    // The clock record the engine owns (`Solverptr->t`, `Sim_Time`, `Tstep`).
    var t: real
    var simTime: real
    var tstep: real

    // The engine's behaviour, fixed when it is created.
    const initCode: int
    const t0: real
    const target: real
    const tstep0: real
    const script: seq<Clock>
    var stepsDone: nat

    ghost var phase: Phase
    ghost var log: seq<Call>

    ghost predicate Valid()
      reads this
    {
      && stepsDone <= |script|
      && (phase == Prepared ==> Clock(t, simTime, tstep) == ClockAfter(t0, target, tstep0, script, stepsDone))
    }

    constructor (initCode: int, t0: real, target: real, tstep0: real, script: seq<Clock>)
      ensures Valid() && phase == Fresh && log == [] && stepsDone == 0
      ensures this.initCode == initCode && this.t0 == t0 && this.target == target
      ensures this.tstep0 == tstep0 && this.script == script
    {
      this.initCode, this.t0, this.target, this.tstep0, this.script := initCode, t0, target, tstep0, script;
      t, simTime, tstep := 0.0, 0.0, 0.0;
      stepsDone := 0;
      phase := Fresh;
      log := [];
    }

    /** The clock record; it exists only between preparation and finalisation. */
    function Solver(): (c: Clock)
      reads this
      requires phase == Prepared
    {
      Clock(t, simTime, tstep)
    }

    /** `init(argc, argv)`: reads the parameter file; may write into the argument buffers. */
    method Init(argc: int, argv: seq<array<char>>) returns (code: int)
      requires Valid() && phase == Fresh
      modifies this, set i | 0 <= i < |argv| :: argv[i]
      ensures Valid() && code == initCode
      ensures phase == if code == 0 then Initialized else InitFailed
      ensures log == old(log) + [InitCall(argc, old(ArgvContents(argv)))]
      ensures stepsDone == old(stepsDone)
    {
      log := log + [InitCall(argc, ArgvContents(argv))];
      code := initCode;
      if code == 0 {
        t, simTime, tstep := t0, target, tstep0;
      }
      phase := if code == 0 then Initialized else InitFailed;
    }

    /** `init_iterateq()`: prepares per-step working state without running the loop. */
    method InitIterateq()
      requires Valid() && phase == Initialized && stepsDone == 0
      modifies this
      ensures Valid() && phase == Prepared && stepsDone == 0
      ensures log == old(log) + [PrepareCall]
      ensures Solver() == Clock(t0, target, tstep0)
    {
      t, simTime, tstep := t0, target, tstep0;
      phase := Prepared;
      log := log + [PrepareCall];
    }

    /** `iterateq_step()`: advances the clock by one engine-sized step. */
    method IterateqStep()
      requires Valid() && phase == Prepared && stepsDone < |script|
      modifies this
      ensures Valid() && phase == Prepared && stepsDone == old(stepsDone) + 1
      ensures log == old(log) + [StepCall]
      ensures Solver() == script[old(stepsDone)]
    {
      t, simTime, tstep := script[stepsDone].t, script[stepsDone].simTime, script[stepsDone].tstep;
      stepsDone := stepsDone + 1;
      log := log + [StepCall];
    }

    /** `final()`: releases everything, also after a failed `init`; never twice. */
    method Final()
      requires Valid() && phase in {InitFailed, Initialized, Prepared}
      modifies this`phase, this`log
      ensures Valid() && phase == Finalized
      ensures log == old(log) + [FinalCall]
    {
      phase := Finalized;
      log := log + [FinalCall];
    }
  }

  /**
   * Builds `argv`: two entries referring to two separately allocated, writable
   * strings, the program name and a copy of the parameter-file path.
   */
  method BuildArgv(path: string) returns (argv: seq<array<char>>)
    requires '\0' !in path
    ensures |argv| == 2 && argv[0] != argv[1]
    ensures fresh(argv[0]) && fresh(argv[1])
    ensures argv[0][..] == ProgramName + ['\0'] && argv[1][..] == path + ['\0']
    ensures CString(argv[0]) == ProgramName && CString(argv[1]) == path
  {
    var progName := new char[|ProgramName| + 1](i => if 0 <= i < |ProgramName| then ProgramName[i] else '\0');
    var paramFile := new char[|path| + 1](i => if 0 <= i < |path| then path[i] else '\0');
    assert progName[..] == ProgramName + ['\0'];
    assert paramFile[..] == path + ['\0'];
    argv := [];
    argv := argv + [progName];
    argv := argv + [paramFile];
  }

  /**
   * The loop of `run_lisflood`: one step while the clock is short of the
   * target, a heartbeat every 100 steps. It also stops when the engine's
   * script is used up, and then reports that the loop has not ended.
   */
  method Iterate(engine: Engine) returns (ended: bool, beats: seq<StatusLine>)
    requires engine.Valid() && engine.phase == Prepared && engine.stepsDone == 0
    modifies engine
    ensures engine.Valid() && engine.phase == Prepared
    ensures ended <==> StepCount(engine.t0, engine.target, engine.tstep0, engine.script).Some?
    ensures engine.stepsDone == StepsTaken(engine.t0, engine.target, engine.tstep0, engine.script)
    ensures engine.log == old(engine.log) + Steps(engine.stepsDone)
    ensures beats == Heartbeats(engine.script, engine.stepsDone)
    ensures ended ==> engine.t >= engine.simTime
    ensures !ended ==> engine.t < engine.simTime
  {
    beats := [];
    ghost var start := engine.log;
    var iter := 0;
    while engine.Solver().t < engine.Solver().simTime && iter < |engine.script|
      invariant engine.Valid() && engine.phase == Prepared
      invariant iter == engine.stepsDone
      invariant forall j :: 0 <= j < iter ==> !Done(ClockAfter(engine.t0, engine.target, engine.tstep0, engine.script, j))
      invariant engine.log == start + Steps(iter)
      invariant beats == Heartbeats(engine.script, iter)
      decreases |engine.script| - engine.stepsDone
    {
      engine.IterateqStep();
      iter := iter + 1;
      if iter % HeartbeatEvery == 0 {
        beats := beats + [Heartbeat(iter, engine.Solver().t, engine.Solver().simTime, engine.Solver().tstep)];
      }
    }
    ended := !(engine.Solver().t < engine.Solver().simTime);
  }

  /**
   * `run_lisflood(par_filename)`. `finished` is false when the engine's script
   * ran out with the clock still short of its target: the source would still
   * be looping, and `final()` has not been called.
   */
  method RunLisflood(path: string, engine: Engine) returns (code: int, finished: bool, out: seq<StatusLine>)
    requires '\0' !in path
    requires engine.Valid() && engine.phase == Fresh && engine.stepsDone == 0
    modifies engine
    ensures engine.Valid()
    ensures code == engine.initCode
    ensures finished <==> code != 0 || StepCount(engine.t0, engine.target, engine.tstep0, engine.script).Some?
    ensures engine.phase == if finished then Finalized else Prepared
    ensures var n := StepsTaken(engine.t0, engine.target, engine.tstep0, engine.script);
      && engine.log == old(engine.log) + RunLog(path, code, n, finished)
      && out == RunOutput(path, code, engine.t0, engine.target, engine.script, n)
      && (code == 0 ==> engine.stepsDone == n)
    ensures code == 0 && finished ==> engine.t >= engine.simTime
  {
    out := [ModeBanner, ParameterFile(path)];
    var argv := BuildArgv(path);
    ArgvContentsPair(argv);
    var result := engine.Init(2, argv);
    if result != 0 {
      out := out + [InitFailedLine(result)];
      engine.Final();
      return result, true, out;
    }
    engine.InitIterateq();
    out := out + [LoopStart(engine.Solver().t, engine.Solver().simTime)];
    var ended, beats := Iterate(engine);
    out := out + beats;
    if ended {
      engine.Final();
    }
    return 0, ended, out;
  }
}
