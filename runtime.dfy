/**
 * The `VRLRuntime` object: a timezone chosen once, and a single-slot cache
 * holding the last program compiled together with its source text.
 *
 * The VRL compiler, the VRL interpreter, the timezone database and the
 * diagnostic formatter are not part of this model; they are the oracle
 * functions of an `Engine`.
 */
module Runtime {
  import opened Wrappers
  import opened Types

  /** `vrl::compiler::TimeZone`: the local zone, or a named IANA zone. */
  datatype TimeZone = Local | Named(id: string)

  /** A compiled VRL program, as the compiler hands it out. */
  datatype Program = Program(handle: nat)

  /** One compiler or runtime diagnostic; only its message is modelled. */
  datatype Diagnostic = Diagnostic(message: string)

  /** `VRLDiagnostic`. */
  datatype VrlDiagnostic = VrlDiagnostic(messages: seq<string>, formattedMessage: string, coloredMessage: string)

  /** `Terminate`: its display text and the diagnostics of its expression error. */
  datatype Terminate = Terminate(text: string, error: seq<Diagnostic>)

  /** `TargetValue`: the event, its metadata and its secrets. */
  datatype Target = Target(value: VrlValue, metadata: VrlValue, secrets: map<string, string>)

  /** What `Runtime::resolve` returns: the target as the program left it and
      the value of the last expression, or a termination. */
  datatype Resolution = Resolved(target: Target, result: VrlValue) | Terminated(terminate: Terminate)

  /** `VRLResult`, without its wall-clock `elapsed_ms`. */
  datatype ExecResult = ExecResult(processedEvent: PyValue, runtimeResult: PyValue)

  /**
   * The code outside this repository that the runtime calls:
   * `compile_with_state` with the full standard library and default state,
   * `Runtime::resolve`, parsing a timezone name, the diagnostic `Formatter`
   * (plain or coloured), and the float conversions of the value layer.
   */
  datatype Engine = Engine(
    compile: string -> Result<Program, seq<Diagnostic>>,
    resolve: (Target, Program, TimeZone) -> Resolution,
    isTimeZone: string -> bool,
    render: (string, seq<Diagnostic>, bool) -> string,
    floats: FloatOps)

  /** The two cache slots, `compiled_program` and `cached_source`. */
  datatype Cache = Cache(program: Option<Program>, source: Option<string>)

  const Empty := Cache(None, None)

  /** The cache invariant: both slots are filled or neither is, and a filled
      cache holds what the compiler makes of the cached source. */
  ghost predicate Coherent(engine: Engine, c: Cache) {
    (c.program.Some? <==> c.source.Some?) &&
    (c.source.Some? ==> engine.compile(c.source.value) == Success(c.program.value))
  }

  /** `new`'s choice of timezone. */
  function ChooseTimeZone(engine: Engine, timezone: Option<string>): (r: Result<TimeZone, PyErr>)
    ensures timezone.None? || timezone == Some("") || timezone == Some("local") ==> r == Success(Local)
    ensures timezone.Some? && timezone.value != "" && timezone.value != "local" && engine.isTimeZone(timezone.value) ==>
              r == Success(Named(timezone.value))
    ensures r.Success? && r.value.Named? ==> timezone == Some(r.value.id) && engine.isTimeZone(r.value.id)
    ensures r.Failure? <==>
              timezone.Some? && timezone.value != "" && timezone.value != "local" && !engine.isTimeZone(timezone.value)
    ensures r.Failure? ==> r.error == ValueError("Invalid timezone identifier: '" + timezone.value + "'")
  {
    match timezone
    case None => Success(Local)
    case Some(name) =>
      if name == "" || name == "local" then Success(Local)
      else if engine.isTimeZone(name) then Success(Named(name))
      else Failure(ValueError("Invalid timezone identifier: '" + name + "'"))
  }

  /** `create_diagnostic`: one message per compiler diagnostic, in order,
      and the source rendered with all of them. */
  function CreateDiagnostic(engine: Engine, source: string, diagnostics: seq<Diagnostic>): (d: VrlDiagnostic)
    ensures |d.messages| == |diagnostics|
    ensures forall k :: 0 <= k < |diagnostics| ==> d.messages[k] == diagnostics[k].message
    ensures d.formattedMessage == engine.render(source, diagnostics, false)
    ensures d.coloredMessage == engine.render(source, diagnostics, true)
  {
    VrlDiagnostic(
      seq(|diagnostics|, k requires 0 <= k < |diagnostics| => diagnostics[k].message),
      engine.render(source, diagnostics, false),
      engine.render(source, diagnostics, true))
  }

  /** `create_runtime_diagnostic`: the termination's text as the one message,
      and the source rendered with its expression error. */
  function CreateRuntimeDiagnostic(engine: Engine, source: string, terminate: Terminate): (d: VrlDiagnostic)
    ensures d.messages == [terminate.text]
    ensures d.formattedMessage == engine.render(source, terminate.error, false)
    ensures d.coloredMessage == engine.render(source, terminate.error, true)
  {
    VrlDiagnostic([terminate.text], engine.render(source, terminate.error, false), engine.render(source, terminate.error, true))
  }

  /** `compile`: on success both slots hold the new program and its source;
      on failure the cache is untouched and a ValueError carries the
      rendered diagnostics. */
  function CompileStep(engine: Engine, c: Cache, source: string): (res: (Result<bool, PyErr>, Cache))
    ensures res.0.Success? <==> engine.compile(source).Success?
    ensures res.0.Success? ==> res.0.value && res.1 == Cache(Some(engine.compile(source).value), Some(source))
    ensures res.0.Failure? ==> res.1 == c
    ensures res.0.Failure? ==>
              res.0.error == ValueError(CreateDiagnostic(engine, source, engine.compile(source).error).formattedMessage)
    ensures Coherent(engine, c) ==> Coherent(engine, res.1)
    ensures res.0.Success? ==> Coherent(engine, res.1)
  {
    match engine.compile(source)
    case Success(program) => (Success(true), Cache(Some(program), Some(source)))
    case Failure(diagnostics) => (Failure(ValueError(CreateDiagnostic(engine, source, diagnostics).formattedMessage)), c)
  }

  /** Whether `execute` calls the compiler: only when the source differs
      from the cached one. */
  predicate Recompiles(c: Cache, source: string) {
    c.source != Some(source)
  }

  /** The first step of `execute`: compile unless the cache already holds
      this source. */
  function EnsureCompiled(engine: Engine, c: Cache, source: string): (res: (Result<bool, PyErr>, Cache))
    ensures !Recompiles(c, source) ==> res == (Success(true), c)
    ensures Recompiles(c, source) ==> res == CompileStep(engine, c, source)
    ensures res.0.Success? ==> res.1.source == Some(source)
    ensures Coherent(engine, c) ==> Coherent(engine, res.1)
  {
    if Recompiles(c, source) then CompileStep(engine, c, source) else (Success(true), c)
  }

  /** The target each `execute` builds: the converted event, an empty
      metadata object and no secrets. */
  function FreshTarget(event: VrlValue): (t: Target)
    ensures t.value == event && t.metadata == Object(map[]) && t.secrets == map[]
  {
    Target(event, Object(map[]), map[])
  }

  /**
   * `execute`: make sure the source is compiled (returning a compile error
   * before looking at the event), convert the event, run the program on a
   * fresh target, and convert the processed event and the result back. A
   * termination becomes a RuntimeError rendered against the cached source.
   */
  function ExecuteStep(engine: Engine, timezone: TimeZone, c: Cache, source: string, event: PyValue)
    : (res: (Result<ExecResult, PyErr>, Cache))
    ensures Coherent(engine, c) ==> Coherent(engine, res.1)
    ensures res.1 == EnsureCompiled(engine, c, source).1
    ensures !Recompiles(c, source) ==> res.1 == c
    ensures EnsureCompiled(engine, c, source).0.Failure? ==> res.0.Failure? && res.0.error.ValueError?
  {
    var (compiled, c1) := EnsureCompiled(engine, c, source);
    if compiled.Failure? then (Failure(compiled.error), c1)
    else if c1.program.None? then (Failure(RuntimeError("Program not compiled")), c1)
    else
      match PyToVrl(engine.floats, event)
      case Failure(e) => (Failure(e), c1)
      case Success(value) =>
        match engine.resolve(FreshTarget(value), c1.program.value, timezone)
        case Resolved(target, result) =>
          (Success(ExecResult(VrlToPy(target.value), VrlToPy(result))), c1)
        case Terminated(terminate) =>
          (Failure(RuntimeError(CreateRuntimeDiagnostic(engine, c1.source.value, terminate).formattedMessage)), c1)
  }

  /** `run`: a brand-new runtime executes once. */
  function RunSpec(engine: Engine, source: string, event: PyValue, timezone: Option<string>): (r: Result<ExecResult, PyErr>)
    ensures ChooseTimeZone(engine, timezone).Failure? ==> r == Failure(ChooseTimeZone(engine, timezone).error)
  {
    var zone :- ChooseTimeZone(engine, timezone);
    ExecuteStep(engine, zone, Empty, source, event).0
  }

  /** `check_syntax`: no diagnostic exactly when the source compiles. */
  function CheckSyntax(engine: Engine, source: string): (r: Option<VrlDiagnostic>)
    ensures r.None? <==> engine.compile(source).Success?
    ensures r.Some? ==> r.value == CreateDiagnostic(engine, source, engine.compile(source).error)
  {
    match engine.compile(source)
    case Success(_) => None
    case Failure(diagnostics) => Some(CreateDiagnostic(engine, source, diagnostics))
  }

  /** `VRLRuntime`. */
  class VrlRuntime {
    const engine: Engine
    const timezone: TimeZone
    var compiledProgram: Option<Program>
    var cachedSource: Option<string>

    function Slots(): Cache
      reads this
    {
      Cache(compiledProgram, cachedSource)
    }

    ghost predicate Valid()
      reads this
    {
      Coherent(engine, Slots())
    }

    constructor(engine: Engine, timezone: TimeZone)
      ensures this.engine == engine && this.timezone == timezone
      ensures Slots() == Empty
      ensures Valid()
    {
      this.engine := engine;
      this.timezone := timezone;
      compiledProgram := None;
      cachedSource := None;
    }

    /** `new`: the timezone is chosen first; an invalid name yields no
        runtime at all. */
    static method New(engine: Engine, timezone: Option<string>) returns (r: Result<VrlRuntime, PyErr>)
      ensures r.Success? <==> ChooseTimeZone(engine, timezone).Success?
      ensures r.Failure? ==> r.error == ChooseTimeZone(engine, timezone).error
      ensures r.Success? ==> fresh(r.value) && r.value.Valid() && r.value.Slots() == Empty
      ensures r.Success? ==> r.value.engine == engine && r.value.timezone == ChooseTimeZone(engine, timezone).value
    {
      var zone :- ChooseTimeZone(engine, timezone);
      var runtime := new VrlRuntime(engine, zone);
      r := Success(runtime);
    }

    /** `compile`. */
    method Compile(source: string) returns (r: Result<bool, PyErr>)
      requires Valid()
      modifies this
      ensures Valid()
      ensures (r, Slots()) == CompileStep(engine, old(Slots()), source)
    {
      match engine.compile(source)
      case Success(program) =>
        compiledProgram := Some(program);
        cachedSource := Some(source);
        r := Success(true);
      case Failure(diagnostics) =>
        var diagnostic := CreateDiagnostic(engine, source, diagnostics);
        r := Failure(ValueError(diagnostic.formattedMessage));
    }

    /** `execute`. */
    method Execute(source: string, event: PyValue) returns (r: Result<ExecResult, PyErr>)
      requires Valid()
      modifies this
      ensures Valid()
      ensures (r, Slots()) == ExecuteStep(engine, timezone, old(Slots()), source, event)
    {
      if cachedSource != Some(source) {
        var compiled := Compile(source);
        if compiled.Failure? {
          return Failure(compiled.error);
        }
      }
      // The cache invariant rules out the "Program not compiled" error.
      assert compiledProgram.Some?;
      var program := compiledProgram.value;
      var value :- PyToVrl(engine.floats, event);
      var target := FreshTarget(value);
      match engine.resolve(target, program, timezone)
      case Resolved(after, result) =>
        var processedEvent := VrlToPy(after.value);
        var runtimeResult := VrlToPy(result);
        r := Success(ExecResult(processedEvent, runtimeResult));
      case Terminated(terminate) =>
        var diagnostic := CreateRuntimeDiagnostic(engine, cachedSource.value, terminate);
        r := Failure(RuntimeError(diagnostic.formattedMessage));
    }

    /** `run`. */
    static method Run(engine: Engine, source: string, event: PyValue, timezone: Option<string>)
      returns (r: Result<ExecResult, PyErr>)
      ensures r == RunSpec(engine, source, event, timezone)
    {
      var runtime :- New(engine, timezone);
      r := runtime.Execute(source, event);
    }

    /** `clear_cache`. */
    method ClearCache()
      modifies this
      ensures Slots() == Empty
      ensures Valid()
    {
      compiledProgram := None;
      cachedSource := None;
    }
  }
}
