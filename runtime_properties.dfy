/**
 * What the runtime's single-slot cache promises: it never changes a
 * result, it saves recompiling a source executed again, a failed compile
 * leaves it alone, and no call's event reaches another call.
 */
module RuntimeProperties {
  import opened Wrappers
  import opened Types
  import opened Runtime
  import TypeProperties

  /** A sequence of `execute` calls on one runtime, each a source and an
      event: the results in order, and the cache left at the end. */
  function ExecuteAll(engine: Engine, timezone: TimeZone, c: Cache, calls: seq<(string, PyValue)>)
    : (res: (seq<Result<ExecResult, PyErr>>, Cache))
    ensures |res.0| == |calls|
    ensures Coherent(engine, c) ==> Coherent(engine, res.1)
    decreases |calls|
  {
    if calls == [] then ([], c)
    else
      var (r, c1) := ExecuteStep(engine, timezone, c, calls[0].0, calls[0].1);
      var (rs, c2) := ExecuteAll(engine, timezone, c1, calls[1..]);
      ([r] + rs, c2)
  }

  /** How many times those calls invoke the compiler. */
  function CompileCalls(engine: Engine, timezone: TimeZone, c: Cache, calls: seq<(string, PyValue)>): (n: nat)
    ensures n <= |calls|
    decreases |calls|
  {
    if calls == [] then 0
    else
      var c1 := ExecuteStep(engine, timezone, c, calls[0].0, calls[0].1).1;
      (if Recompiles(c, calls[0].0) then 1 else 0) + CompileCalls(engine, timezone, c1, calls[1..])
  }

  predicate AllSource(calls: seq<(string, PyValue)>, source: string) {
    forall k :: 0 <= k < |calls| ==> calls[k].0 == source
  }

  // ---------------------------------------------------------------------
  // The cache

  /** After `execute` has compiled a source, the cache holds that source
      and its program, so the next `execute` of it does not recompile. */
  lemma ExecuteCachesSource(engine: Engine, timezone: TimeZone, c: Cache, source: string, event: PyValue)
    requires Coherent(engine, c) && engine.compile(source).Success?
    ensures ExecuteStep(engine, timezone, c, source, event).1 == Cache(Some(engine.compile(source).value), Some(source))
    ensures !Recompiles(ExecuteStep(engine, timezone, c, source, event).1, source)
  {
  }

  /** Whenever `execute` gets past compiling, the program slot holds what
      the compiler makes of the source: "Program not compiled" cannot
      happen. */
  lemma ProgramPresent(engine: Engine, c: Cache, source: string)
    requires Coherent(engine, c)
    ensures EnsureCompiled(engine, c, source).0.Success? ==>
              engine.compile(source).Success? &&
              EnsureCompiled(engine, c, source).1.program == Some(engine.compile(source).value)
  {
  }

  /** Executing one source any number of times compiles it at most once:
      once if the cache held another source, never if it held this one. */
  lemma {:induction false} SameSourceCompilesOnce(engine: Engine, timezone: TimeZone, c: Cache, source: string, calls: seq<(string, PyValue)>)
    requires Coherent(engine, c) && engine.compile(source).Success?
    requires AllSource(calls, source)
    ensures CompileCalls(engine, timezone, c, calls) == if calls != [] && Recompiles(c, source) then 1 else 0
    decreases |calls|
  {
    if calls != [] {
      var c1 := ExecuteStep(engine, timezone, c, source, calls[0].1).1;
      ExecuteCachesSource(engine, timezone, c, source, calls[0].1);
      assert AllSource(calls[1..], source) by {
        forall k | 0 <= k < |calls[1..]| ensures calls[1..][k].0 == source {
          assert calls[1..][k] == calls[k + 1];
        }
      }
      SameSourceCompilesOnce(engine, timezone, c1, source, calls[1..]);
    }
  }

  /** A source that does not compile is handed to the compiler on every
      `execute`, and the cache stays as it was. */
  lemma {:induction false} FailingSourceCompilesEveryTime(engine: Engine, timezone: TimeZone, c: Cache, source: string, calls: seq<(string, PyValue)>)
    requires Coherent(engine, c) && engine.compile(source).Failure?
    requires AllSource(calls, source)
    ensures CompileCalls(engine, timezone, c, calls) == |calls|
    ensures ExecuteAll(engine, timezone, c, calls).1 == c
    decreases |calls|
  {
    if calls != [] {
      assert Recompiles(c, source);
      assert AllSource(calls[1..], source) by {
        forall k | 0 <= k < |calls[1..]| ensures calls[1..][k].0 == source {
          assert calls[1..][k] == calls[k + 1];
        }
      }
      FailingSourceCompilesEveryTime(engine, timezone, c, source, calls[1..]);
    }
  }

  /** The cache never changes a result: on any two coherent caches,
      empty ones included, `execute` answers the same. */
  lemma CacheTransparent(engine: Engine, timezone: TimeZone, c1: Cache, c2: Cache, source: string, event: PyValue)
    requires Coherent(engine, c1) && Coherent(engine, c2)
    ensures ExecuteStep(engine, timezone, c1, source, event).0 == ExecuteStep(engine, timezone, c2, source, event).0
  {
    ProgramPresent(engine, c1, source);
    ProgramPresent(engine, c2, source);
  }

  /** Each call in a sequence answers as it would on a brand-new runtime:
      only the compiled program is shared, never an event. */
  lemma {:induction false} CallsIndependent(engine: Engine, timezone: TimeZone, c: Cache, calls: seq<(string, PyValue)>)
    requires Coherent(engine, c)
    ensures forall k :: 0 <= k < |calls| ==>
              ExecuteAll(engine, timezone, c, calls).0[k] == ExecuteStep(engine, timezone, Empty, calls[k].0, calls[k].1).0
    decreases |calls|
  {
    if calls != [] {
      var c1 := ExecuteStep(engine, timezone, c, calls[0].0, calls[0].1).1;
      CacheTransparent(engine, timezone, c, Empty, calls[0].0, calls[0].1);
      CallsIndependent(engine, timezone, c1, calls[1..]);
      var all := ExecuteAll(engine, timezone, c, calls).0;
      forall k | 0 <= k < |calls|
        ensures all[k] == ExecuteStep(engine, timezone, Empty, calls[k].0, calls[k].1).0
      {
        if k > 0 {
          assert calls[1..][k - 1] == calls[k];
        }
      }
    }
  }

  // ---------------------------------------------------------------------
  // Errors

  /** A compile error inside `execute` is returned before the event is
      looked at: the same ValueError for every event, even one that does
      not convert, and the cache untouched. */
  lemma CompileErrorFirst(engine: Engine, timezone: TimeZone, c: Cache, source: string, event: PyValue)
    requires Recompiles(c, source) && engine.compile(source).Failure?
    ensures ExecuteStep(engine, timezone, c, source, event) ==
            (Failure(ValueError(CreateDiagnostic(engine, source, engine.compile(source).error).formattedMessage)), c)
  {
  }

  /** `execute` succeeds exactly when the source compiles, the event
      converts and the program runs to the end; it then returns the target's
      event and the program's value, both converted back to the host. */
  lemma ExecuteSucceeds(engine: Engine, timezone: TimeZone, c: Cache, source: string, event: PyValue)
    requires Coherent(engine, c)
    ensures ExecuteStep(engine, timezone, c, source, event).0.Success? <==>
            engine.compile(source).Success? && PyToVrl(engine.floats, event).Success? &&
            engine.resolve(FreshTarget(PyToVrl(engine.floats, event).value), engine.compile(source).value, timezone).Resolved?
    ensures ExecuteStep(engine, timezone, c, source, event).0.Success? ==>
              var res := engine.resolve(FreshTarget(PyToVrl(engine.floats, event).value), engine.compile(source).value, timezone);
              res.Resolved? &&
              ExecuteStep(engine, timezone, c, source, event).0.value == ExecResult(VrlToPy(res.target.value), VrlToPy(res.result))
  {
    ProgramPresent(engine, c, source);
  }

  /** A program that terminates yields a RuntimeError rendered against the
      source just executed, and the cache keeps that source's program. */
  lemma TerminationIsRuntimeError(engine: Engine, timezone: TimeZone, c: Cache, source: string, event: PyValue,
                                  program: Program, value: VrlValue, terminate: Terminate)
    requires Coherent(engine, c)
    requires engine.compile(source) == Success(program)
    requires PyToVrl(engine.floats, event) == Success(value)
    requires engine.resolve(FreshTarget(value), program, timezone) == Terminated(terminate)
    ensures ExecuteStep(engine, timezone, c, source, event) ==
            (Failure(RuntimeError(CreateRuntimeDiagnostic(engine, source, terminate).formattedMessage)),
             Cache(Some(program), Some(source)))
  {
    ProgramPresent(engine, c, source);
  }

  /** An event that does not convert fails `execute` with the conversion's
      own TypeError or ValueError, after the source has been cached. */
  lemma ConversionErrorAfterCompile(engine: Engine, timezone: TimeZone, c: Cache, source: string, event: PyValue)
    requires Coherent(engine, c) && engine.compile(source).Success?
    requires !TypeProperties.EventConvertible(engine.floats, event)
    ensures PyToVrl(engine.floats, event).Failure?
    ensures ExecuteStep(engine, timezone, c, source, event).0 == Failure(PyToVrl(engine.floats, event).error)
    ensures ExecuteStep(engine, timezone, c, source, event).0.error.TypeError? ||
            ExecuteStep(engine, timezone, c, source, event).0.error.ValueError?
    ensures ExecuteStep(engine, timezone, c, source, event).1 == Cache(Some(engine.compile(source).value), Some(source))
  {
    TypeProperties.PyToVrlSucceeds(engine.floats, event);
    ProgramPresent(engine, c, source);
  }

  /** A program that leaves its target alone and evaluates to null hands
      back the very event it was given, for JSON-safe events whose dicts
      are in key order and that nest below the JSON parser's limit, when
      the parser reads the event's floats, if any, back exactly. */
  lemma IdentityProgramEchoesEvent(engine: Engine, timezone: TimeZone, c: Cache, source: string, event: PyValue)
    requires Coherent(engine, c) && engine.compile(source).Success?
    requires forall t: Target :: engine.resolve(t, engine.compile(source).value, timezone) == Resolved(t, Null)
    requires TypeProperties.JsonSafe(event) && TypeProperties.KeyOrdered(event) && !event.PyFloat?
    requires TypeProperties.PyFloatsReadBack(engine.floats, event) && TypeProperties.PyWithinDepth(event, RecursionLimit - 1)
    ensures ExecuteStep(engine, timezone, c, source, event).0 == Success(ExecResult(event, PyNone))
  {
    TypeProperties.HostRoundTripExact(engine.floats, event);
    ProgramPresent(engine, c, source);
  }

  /** The same program hands back, for any JSON-safe event that nests below
      the parser's limit and whose floats, if any, read back exactly, a
      value the host finds equal to the event: its dicts may come back with
      their entries in another order. */
  lemma IdentityProgramEchoesEventUpToOrder(engine: Engine, timezone: TimeZone, c: Cache, source: string, event: PyValue)
    requires Coherent(engine, c) && engine.compile(source).Success?
    requires forall t: Target :: engine.resolve(t, engine.compile(source).value, timezone) == Resolved(t, Null)
    requires TypeProperties.JsonSafe(event) && !event.PyFloat?
    requires TypeProperties.PyFloatsReadBack(engine.floats, event) && TypeProperties.PyWithinDepth(event, RecursionLimit - 1)
    ensures ExecuteStep(engine, timezone, c, source, event).0.Success?
    ensures TypeProperties.SameUpToDictOrder(ExecuteStep(engine, timezone, c, source, event).0.value.processedEvent, event)
    ensures ExecuteStep(engine, timezone, c, source, event).0.value.runtimeResult == PyNone
  {
    TypeProperties.HostRoundTripUpToOrder(engine.floats, event);
    ProgramPresent(engine, c, source);
  }

  // ---------------------------------------------------------------------
  // The stateless helpers

  /** `check_syntax` reports nothing exactly when `compile` would succeed,
      and otherwise the diagnostic whose rendering `compile` raises. */
  lemma CheckSyntaxAgrees(engine: Engine, c: Cache, source: string)
    ensures CheckSyntax(engine, source).None? <==> CompileStep(engine, c, source).0.Success?
    ensures CheckSyntax(engine, source).Some? ==>
              CompileStep(engine, c, source).0 == Failure(ValueError(CheckSyntax(engine, source).value.formattedMessage))
  {
  }

  /** `run` answers as `execute` on a runtime with the same timezone,
      whatever that runtime has cached. */
  lemma RunIsExecute(engine: Engine, source: string, event: PyValue, timezone: Option<string>, c: Cache)
    requires Coherent(engine, c) && ChooseTimeZone(engine, timezone).Success?
    ensures RunSpec(engine, source, event, timezone) ==
            ExecuteStep(engine, ChooseTimeZone(engine, timezone).value, c, source, event).0
  {
    CacheTransparent(engine, ChooseTimeZone(engine, timezone).value, Empty, c, source, event);
  }
}
