/** `test_rust_code` and `test_python_code` (src/code_assistant.py) as pure
    decision procedures. Each child process the runners start is replaced by
    the outcome it produced: an exit status with its standard error, a timeout
    (Python's `subprocess.TimeoutExpired`) or another exception with its text. */
module Runners {
  import opened Wrappers
  import opened Text

  datatype StepOutcome = Exited(code: int, stderr: string) | TimedOut | Raised(message: string)

  /** The child processes, in the order the runners may start them. */
  datatype Step = CargoBuild | CargoTest | Compile | Execute | Pytest | Unittest

  /** The runner's `(success, output)` pair and the steps it started. */
  datatype Report = Report(passed: bool, output: string, steps: seq<Step>)

  predicate Succeeded(o: StepOutcome) {
    o.Exited? && o.code == 0
  }

  predicate Failed(o: StepOutcome) {
    o.Exited? && o.code != 0
  }

  const CargoMissing: string :=
    "Rust/Cargo not installed. Install with: curl --proto '=https' --tlsv1.2 -sSf https://sh.rustup.rs | sh"
  const RustPassed: string := "All tests passed!"
  const RustTimeout: string := "Compilation/testing timed out"
  const PythonPassed: string := "Code executed successfully!"
  const PythonTimeout: string := "Code execution timed out"
  const BuildFailed: string := "Build failed:\n"
  const TestsFailed: string := "Tests failed:\n"
  const SyntaxFailed: string := "Syntax error:\n"
  const RuntimeFailed: string := "Runtime error:\n"
  const ErrorPrefix: string := "Error: "

  /** The diagnostic that ends the run after a step, or None when the step
      exited with status 0 and the run goes on. */
  function Abort(o: StepOutcome, failedPrefix: string, timeout: string): (m: Option<string>)
    ensures m.None? <==> Succeeded(o)
    ensures Failed(o) ==> m == Some(failedPrefix + o.stderr)
    ensures o.TimedOut? ==> m == Some(timeout)
    ensures o.Raised? ==> m == Some(ErrorPrefix + o.message)
  {
    match o
    case Exited(c, e) => if c == 0 then None else Some(failedPrefix + e)
    case TimedOut => Some(timeout)
    case Raised(msg) => Some(ErrorPrefix + msg)
  }

  /** `test_rust_code`: without cargo nothing is started; otherwise `cargo build`
      and, only after a successful build, `cargo test`. */
  function RunRust(cargoAvailable: bool, build: StepOutcome, test: StepOutcome): (r: Report)
    ensures r.passed <==> cargoAvailable && Succeeded(build) && Succeeded(test)
    ensures r.passed ==> r.output == RustPassed && r.steps == [CargoBuild, CargoTest]
    ensures !cargoAvailable ==> r == Report(false, CargoMissing, [])
    ensures cargoAvailable && Failed(build) ==>
              r == Report(false, BuildFailed + build.stderr, [CargoBuild])
    ensures cargoAvailable && Succeeded(build) && Failed(test) ==>
              r.output == TestsFailed + test.stderr
    ensures cargoAvailable && (build.TimedOut? || (Succeeded(build) && test.TimedOut?)) ==>
              r.output == RustTimeout
    ensures cargoAvailable && build.Raised? ==> r.output == ErrorPrefix + build.message
    ensures cargoAvailable && Succeeded(build) && test.Raised? ==> r.output == ErrorPrefix + test.message
    ensures CargoTest in r.steps ==> cargoAvailable && Succeeded(build)
    ensures r.steps <= [CargoBuild, CargoTest]
  {
    if !cargoAvailable then Report(false, CargoMissing, [])
    else
      match Abort(build, BuildFailed, RustTimeout)
      case Some(m) => Report(false, m, [CargoBuild])
      case None =>
        match Abort(test, TestsFailed, RustTimeout)
        case Some(m) => Report(false, m, [CargoBuild, CargoTest])
        case None => Report(true, RustPassed, [CargoBuild, CargoTest])
  }

  /** The code asks for its tests to be run. */
  predicate WantsTests(code: string) {
    Contains(code, "pytest") || Contains(code, "unittest")
  }

  /** `test_python_code`: a syntax check, a run, then, when the code mentions a
      test framework, pytest and, only if pytest exits nonzero, unittest. */
  function RunPython(code: string, compile: StepOutcome, execute: StepOutcome,
                     pytest: StepOutcome, unittest: StepOutcome): (r: Report)
    ensures r.passed <==>
              && Succeeded(compile) && Succeeded(execute)
              && (!WantsTests(code) || Succeeded(pytest) || (Failed(pytest) && Succeeded(unittest)))
    ensures r.passed ==> r.output == PythonPassed
    ensures Failed(compile) ==> r == Report(false, SyntaxFailed + compile.stderr, [Compile])
    ensures Succeeded(compile) && Failed(execute) ==>
              r == Report(false, RuntimeFailed + execute.stderr, [Compile, Execute])
    ensures Pytest in r.steps <==> Succeeded(compile) && Succeeded(execute) && WantsTests(code)
    ensures Unittest in r.steps <==>
              Succeeded(compile) && Succeeded(execute) && WantsTests(code) && Failed(pytest)
    ensures !r.passed && Unittest in r.steps && unittest.Exited? ==>
              r.output == TestsFailed + unittest.stderr
    ensures compile.TimedOut? || (Succeeded(compile) && execute.TimedOut?) ==> r.output == PythonTimeout
    ensures Pytest in r.steps && pytest.TimedOut? ==> r.output == PythonTimeout
    ensures Unittest in r.steps && unittest.TimedOut? ==> r.output == PythonTimeout
    ensures compile.Raised? ==> r.output == ErrorPrefix + compile.message
    ensures Succeeded(compile) && execute.Raised? ==> r.output == ErrorPrefix + execute.message
    ensures Pytest in r.steps && pytest.Raised? ==> r.output == ErrorPrefix + pytest.message
    ensures Unittest in r.steps && unittest.Raised? ==> r.output == ErrorPrefix + unittest.message
    ensures r.steps <= [Compile, Execute, Pytest, Unittest]
  {
    match Abort(compile, SyntaxFailed, PythonTimeout)
    case Some(m) => Report(false, m, [Compile])
    case None =>
      match Abort(execute, RuntimeFailed, PythonTimeout)
      case Some(m) => Report(false, m, [Compile, Execute])
      case None =>
        if !WantsTests(code) then Report(true, PythonPassed, [Compile, Execute])
        else if Succeeded(pytest) then Report(true, PythonPassed, [Compile, Execute, Pytest])
        else if !Failed(pytest) then
          Report(false, Abort(pytest, TestsFailed, PythonTimeout).value, [Compile, Execute, Pytest])
        else
          match Abort(unittest, TestsFailed, PythonTimeout)
          case Some(m) => Report(false, m, [Compile, Execute, Pytest, Unittest])
          case None => Report(true, PythonPassed, [Compile, Execute, Pytest, Unittest])
  }

  /** No diagnostic spells the success message: a run passed exactly when its
      output is the success text. */
  lemma RustPassedIffSuccessText(cargoAvailable: bool, build: StepOutcome, test: StepOutcome)
    ensures var r := RunRust(cargoAvailable, build, test);
            r.passed <==> r.output == RustPassed
  {
    var r := RunRust(cargoAvailable, build, test);
    if !r.passed {
      DiagnosticIsNotSuccess(r.output, RustPassed);
    }
  }

  lemma PythonPassedIffSuccessText(code: string, compile: StepOutcome, execute: StepOutcome,
                                   pytest: StepOutcome, unittest: StepOutcome)
    ensures var r := RunPython(code, compile, execute, pytest, unittest);
            r.passed <==> r.output == PythonPassed
  {
    var r := RunPython(code, compile, execute, pytest, unittest);
    if !r.passed {
      DiagnosticIsNotSuccess(r.output, PythonPassed);
    }
  }

  /** The failure texts of either runner. */
  predicate IsDiagnostic(s: string) {
    || s in {CargoMissing, RustTimeout, PythonTimeout}
    || StartsWith(s, BuildFailed) || StartsWith(s, TestsFailed)
    || StartsWith(s, SyntaxFailed) || StartsWith(s, RuntimeFailed) || StartsWith(s, ErrorPrefix)
  }

  lemma DiagnosticIsNotSuccess(s: string, success: string)
    requires IsDiagnostic(s) && success in {RustPassed, PythonPassed}
    ensures s != success
  {
    SuccessIsNoDiagnostic(success);
  }

  lemma SuccessIsNoDiagnostic(success: string)
    requires success in {RustPassed, PythonPassed}
    ensures !IsDiagnostic(success)
  {
    var prefixes := [BuildFailed, TestsFailed, SyntaxFailed, RuntimeFailed, ErrorPrefix];
    forall i | 0 <= i < |prefixes| ensures !StartsWith(success, prefixes[i]) {
      if |prefixes[i]| <= |success| {
        assert success[..|prefixes[i]|][0] != prefixes[i][0];
      }
    }
    assert !StartsWith(success, prefixes[0]) && !StartsWith(success, prefixes[1]);
    assert !StartsWith(success, prefixes[2]) && !StartsWith(success, prefixes[3]);
    assert !StartsWith(success, prefixes[4]);
    assert |success| in {17, 27};
    assert |CargoMissing| > 27 && |RustTimeout| == 29 && |PythonTimeout| == 24;
  }
}
