/** The self-healing loop of `solve_task` (src/code_assistant.py): generate
    code, test it, and on failure feed the diagnostic into the next prompt, for
    at most three attempts. The code generator and the test runner are
    oracles indexed by attempt number. */
module Retry {
  import opened Wrappers
  import opened Text
  import opened TaskLanguage
  import opened Prompt
  import opened Runners

  const MaxAttempts: nat := 3

  /** A runner's `(success, output)` pair. */
  datatype Verdict = Verdict(passed: bool, output: string)

  /** One pass of the loop: its number, the prompt sent, the code received,
      the audit file it was saved to and the runner's verdict. */
  datatype Attempt = Attempt(number: nat, prompt: string, code: string, filename: string, verdict: Verdict)

  /** The dictionary `solve_task` returns. */
  datatype Outcome =
    | Solved(attempts: nat, finalCode: string, filename: string, output: string)
    | GaveUp(attempts: nat, finalError: string, finalCode: string)

  /** The loop from attempt `k` on, `previous` being the last diagnostic;
      `prompt` builds the prompt carrying a diagnostic and `name` the audit
      file of an attempt. */
  function Loop(prompt: Option<string> -> string, name: nat -> string,
                generate: (nat, string) -> string, test: (nat, string) -> Verdict,
                k: nat, previous: Option<string>): (r: seq<Attempt>)
    requires 1 <= k <= MaxAttempts
    ensures 1 <= |r| <= MaxAttempts - k + 1
    decreases MaxAttempts - k
  {
    var p := prompt(previous);
    var code := generate(k, p);
    var verdict := test(k, code);
    var attempt := Attempt(k, p, code, name(k), verdict);
    if verdict.passed || k == MaxAttempts then [attempt]
    else [attempt] + Loop(prompt, name, generate, test, k + 1, Some(verdict.output))
  }

  /** Attempt `k + i` is numbered, named, generated and judged as attempt
      `k + i`. */
  lemma {:induction false} LoopAttempts(prompt: Option<string> -> string, name: nat -> string,
                generate: (nat, string) -> string, test: (nat, string) -> Verdict,
                k: nat, previous: Option<string>)
    requires 1 <= k <= MaxAttempts
    ensures var r := Loop(prompt, name, generate, test, k, previous);
            forall i :: 0 <= i < |r| ==>
              && r[i].number == k + i
              && r[i].filename == name(k + i)
              && r[i].code == generate(k + i, r[i].prompt)
              && r[i].verdict == test(k + i, r[i].code)
    decreases MaxAttempts - k
  {
    var r := Loop(prompt, name, generate, test, k, previous);
    if !(r[0].verdict.passed || k == MaxAttempts) {
      LoopAttempts(prompt, name, generate, test, k + 1, Some(r[0].verdict.output));
      assert forall i :: 0 < i < |r| ==> r[i] == r[1..][i - 1];
    }
  }

  /** The first prompt carries `previous`, each later one the diagnostic just
      before it. */
  lemma {:induction false} LoopFeedback(prompt: Option<string> -> string, name: nat -> string,
                generate: (nat, string) -> string, test: (nat, string) -> Verdict,
                k: nat, previous: Option<string>)
    requires 1 <= k <= MaxAttempts
    ensures var r := Loop(prompt, name, generate, test, k, previous);
            && r[0].prompt == prompt(previous)
            && (forall i :: 0 < i < |r| ==> r[i].prompt == prompt(Some(r[i - 1].verdict.output)))
    decreases MaxAttempts - k
  {
    var r := Loop(prompt, name, generate, test, k, previous);
    if !(r[0].verdict.passed || k == MaxAttempts) {
      LoopFeedback(prompt, name, generate, test, k + 1, Some(r[0].verdict.output));
      assert forall i :: 0 < i < |r| ==> r[i] == r[1..][i - 1];
    }
  }

  /** The loop goes on only after a failure and stops at the first success or
      at the last attempt allowed. */
  lemma {:induction false} LoopStops(prompt: Option<string> -> string, name: nat -> string,
                generate: (nat, string) -> string, test: (nat, string) -> Verdict,
                k: nat, previous: Option<string>)
    requires 1 <= k <= MaxAttempts
    ensures var r := Loop(prompt, name, generate, test, k, previous);
            && (forall i :: 0 <= i < |r| - 1 ==> !r[i].verdict.passed)
            && (r[|r| - 1].verdict.passed || k + |r| - 1 == MaxAttempts)
    decreases MaxAttempts - k
  {
    var r := Loop(prompt, name, generate, test, k, previous);
    if !(r[0].verdict.passed || k == MaxAttempts) {
      LoopStops(prompt, name, generate, test, k + 1, Some(r[0].verdict.output));
      assert forall i :: 0 < i < |r| ==> r[i] == r[1..][i - 1];
    }
  }

  /** What a run of the loop must look like, stated attempt by attempt. */
  predicate IsTrace(t: seq<Attempt>, task: string, language: Language, slug: string,
                    generate: (nat, string) -> string, test: (nat, string) -> Verdict)
  {
    && 1 <= |t| <= MaxAttempts
    && (forall i :: 0 <= i < |t| ==>
          && t[i].number == i + 1
          && t[i].filename == Filename(slug, i + 1, language)
          && t[i].code == generate(i + 1, t[i].prompt)
          && t[i].verdict == test(i + 1, t[i].code))
    && t[0].prompt == BuildPrompt(task, language, None)
    && (forall i :: 0 < i < |t| ==> t[i].prompt == BuildPrompt(task, language, Some(t[i - 1].verdict.output)))
    && (forall i :: 0 <= i < |t| - 1 ==> !t[i].verdict.passed)
    && (t[|t| - 1].verdict.passed || |t| == MaxAttempts)
  }

  /** The attempts of a whole run. */
  function Attempts(task: string, language: Language, slug: string,
                    generate: (nat, string) -> string, test: (nat, string) -> Verdict): (t: seq<Attempt>)
    ensures IsTrace(t, task, language, slug, generate, test)
  {
    var prompt := (previous: Option<string>) => BuildPrompt(task, language, previous);
    var name := (k: nat) => Filename(slug, k, language);
    LoopAttempts(prompt, name, generate, test, 1, None);
    LoopFeedback(prompt, name, generate, test, 1, None);
    LoopStops(prompt, name, generate, test, 1, None);
    Loop(prompt, name, generate, test, 1, None)
  }

  /** The oracles leave only one possible run. */
  lemma {:induction false} TraceUnique(t: seq<Attempt>, u: seq<Attempt>, task: string, language: Language, slug: string,
                                       generate: (nat, string) -> string, test: (nat, string) -> Verdict)
    requires IsTrace(t, task, language, slug, generate, test)
    requires IsTrace(u, task, language, slug, generate, test)
    ensures t == u
  {
    var n := if |t| < |u| then |t| else |u|;
    for j := 0 to n
      invariant forall i :: 0 <= i < j ==> t[i] == u[i]
    {
      if j > 0 {
        assert t[j - 1] == u[j - 1];
      }
    }
  }

  /** The result dictionary read off the last attempt. */
  function OutcomeOf(t: seq<Attempt>): (o: Outcome)
    requires |t| >= 1
    ensures o.Solved? <==> t[|t| - 1].verdict.passed
    ensures o.attempts == (if o.Solved? then |t| else MaxAttempts)
    ensures o.finalCode == t[|t| - 1].code
    ensures o.Solved? ==> o.filename == t[|t| - 1].filename && o.output == t[|t| - 1].verdict.output
    ensures o.GaveUp? ==> o.finalError == t[|t| - 1].verdict.output
  {
    var last := t[|t| - 1];
    if last.verdict.passed then Solved(|t|, last.code, last.filename, last.verdict.output)
    else GaveUp(MaxAttempts, last.verdict.output, last.code)
  }

  /** The loop's contract from the caller's side: success at the first passing
      attempt, failure only after three failed attempts, and 1 to 3 attempts. */
  lemma OutcomeOfRun(task: string, language: Language, slug: string,
                     generate: (nat, string) -> string, test: (nat, string) -> Verdict)
    ensures var t := Attempts(task, language, slug, generate, test);
            var o := OutcomeOf(t);
            && 1 <= o.attempts <= MaxAttempts
            && (o.Solved? ==>
                  && t[o.attempts - 1].verdict.passed
                  && (forall i :: 0 <= i < o.attempts - 1 ==> !t[i].verdict.passed)
                  && o.finalCode == t[o.attempts - 1].code
                  && |t| == o.attempts)
            && (o.GaveUp? ==>
                  && |t| == MaxAttempts
                  && (forall i :: 0 <= i < MaxAttempts ==> !t[i].verdict.passed)
                  && o.finalError == t[MaxAttempts - 1].verdict.output)
  {
  }

  /** When attempt `k` is the first one the runner accepts, the run stops there
      with success. */
  lemma {:induction false} FirstPassWins(task: string, language: Language, slug: string,
                                         generate: (nat, string) -> string, test: (nat, string) -> Verdict,
                                         k: nat)
    requires 1 <= k <= MaxAttempts
    requires k - 1 < |Attempts(task, language, slug, generate, test)|
    requires Attempts(task, language, slug, generate, test)[k - 1].verdict.passed
    ensures OutcomeOf(Attempts(task, language, slug, generate, test)).Solved?
    ensures OutcomeOf(Attempts(task, language, slug, generate, test)).attempts == k
  {
  }

  /** Each retry quotes the previous diagnostic: a nonempty one can be read back
      from the next prompt. */
  lemma RetryCarriesDiagnostic(task: string, language: Language, slug: string,
                               generate: (nat, string) -> string, test: (nat, string) -> Verdict, i: nat)
    requires 0 < i < |Attempts(task, language, slug, generate, test)|
    ensures var t := Attempts(task, language, slug, generate, test);
            var e := t[i - 1].verdict.output;
            && (e != "" ==> Contains(t[i].prompt, Feedback(e)))
            && RecoverError(t[i].prompt, task, language) == Carried(Some(e))
  {
    var t := Attempts(task, language, slug, generate, test);
    RecoverBuiltError(task, language, Some(t[i - 1].verdict.output));
  }

  /** The per-attempt outcomes of the child processes, standing in for the
      machine the runners execute on. For Rust, `cargo` is the answer of the
      availability check the runner repeats on every attempt. */
  datatype RustSteps = RustSteps(cargo: bool, build: StepOutcome, test: StepOutcome)
  datatype PythonSteps = PythonSteps(compile: StepOutcome, execute: StepOutcome, pytest: StepOutcome, unittest: StepOutcome)

  function AsVerdict(r: Report): Verdict {
    Verdict(r.passed, r.output)
  }

  /** The runner `solve_task` calls for the chosen language. */
  function Tester(language: Language, rust: nat -> RustSteps, python: nat -> PythonSteps): (nat, string) -> Verdict
  {
    (k: nat, code: string) =>
      match language
      case Rust => AsVerdict(RunRust(rust(k).cargo, rust(k).build, rust(k).test))
      case Python =>
        AsVerdict(RunPython(code, python(k).compile, python(k).execute, python(k).pytest, python(k).unittest))
  }

  /** A whole `solve_task` call: language resolution, the loop, the result. */
  datatype Solution = Solution(language: Language, task: string, attempts: seq<Attempt>, outcome: Outcome)

  /** `cargoAvailable` is the answer of the check `solve_task` makes before
      the loop; each Rust attempt repeats the check (`RustSteps.cargo`). */
  function SolveTask(task: string, cargoAvailable: bool, generate: (nat, string) -> string,
                     rust: nat -> RustSteps, python: nat -> PythonSteps): (s: Solution)
    ensures s.language == Rust <==> Contains(Lower(task), "rust") && cargoAvailable
    ensures s.task == Resolve(task, cargoAvailable).task && s.language == Resolve(task, cargoAvailable).language
    ensures IsTrace(s.attempts, s.task, s.language, Slug(s.task), generate, Tester(s.language, rust, python))
    ensures s.outcome == OutcomeOf(s.attempts)
    ensures forall i :: 0 <= i < |s.attempts| ==>
              s.attempts[i].filename == Slug(s.task) + "_attempt_" + NatToString(i + 1) + Extension(s.language)
  {
    var resolved := Resolve(task, cargoAvailable);
    var tester := Tester(resolved.language, rust, python);
    var t := Attempts(resolved.task, resolved.language, Slug(resolved.task), generate, tester);
    Solution(resolved.language, resolved.task, t, OutcomeOf(t))
  }

  /** A Rust solve was started only after cargo was found; an attempt whose own
      check finds cargo passes exactly when build and tests succeed, and one
      whose check no longer finds it fails with the "not installed" text. */
  lemma RustRunsHaveCargo(task: string, cargoAvailable: bool, generate: (nat, string) -> string,
                          rust: nat -> RustSteps, python: nat -> PythonSteps, i: nat)
    requires var s := SolveTask(task, cargoAvailable, generate, rust, python);
             s.language == Rust && i < |s.attempts|
    ensures cargoAvailable
    ensures var s := SolveTask(task, cargoAvailable, generate, rust, python);
            rust(i + 1).cargo ==>
              (s.attempts[i].verdict.passed <==> Succeeded(rust(i + 1).build) && Succeeded(rust(i + 1).test))
    ensures var s := SolveTask(task, cargoAvailable, generate, rust, python);
            !rust(i + 1).cargo ==> s.attempts[i].verdict == Verdict(false, CargoMissing)
  {
    var s := SolveTask(task, cargoAvailable, generate, rust, python);
    var steps := rust(i + 1);
    assert s.attempts[i].verdict == AsVerdict(RunRust(steps.cargo, steps.build, steps.test));
  }

  /** On a host without cargo, "write quicksort in Rust" is solved in Python
      and its first attempt is saved as write_quicksort_in_python_attempt_1.py,
      the artifact checked into generated_code/. */
  lemma QuicksortWithoutCargo(generate: (nat, string) -> string, rust: nat -> RustSteps, python: nat -> PythonSteps)
    ensures var s := SolveTask("write quicksort in Rust", false, generate, rust, python);
            && s.language == Python
            && s.task == "write quicksort in Python"
            && s.attempts[0].filename == "write_quicksort_in_python_attempt_1.py"
  {
    QuicksortFallback();
  }

  /** A generator that always produces the same code and a runner whose
      verdict depends only on the attempt number. */
  function Constant(code: string): (nat, string) -> string {
    (k: nat, prompt: string) => code
  }

  function ByAttempt(verdicts: nat -> Verdict): (nat, string) -> Verdict {
    (k: nat, code: string) => verdicts(k)
  }

  /** Success on the first attempt: one attempt, with the first code. */
  lemma SolvedAtOnce(task: string, language: Language, code: string, output: string)
    ensures var t := Attempts(task, language, Slug(task), Constant(code), ByAttempt(k => Verdict(true, output)));
            OutcomeOf(t) == Solved(1, code, Filename(Slug(task), 1, language), output)
  {
  }

  /** A failure, then success: two attempts, and the second prompt quotes the
      first diagnostic. */
  lemma SolvedOnRetry(task: string, language: Language, code: string)
    ensures var verdicts := (k: nat) => if k == 1 then Verdict(false, "Test failed") else Verdict(true, "Success!");
            var t := Attempts(task, language, Slug(task), Constant(code), ByAttempt(verdicts));
            && OutcomeOf(t).Solved? && OutcomeOf(t).attempts == 2
            && t[1].prompt == BuildPrompt(task, language, Some("Test failed"))
  {
    var verdicts := (k: nat) => if k == 1 then Verdict(false, "Test failed") else Verdict(true, "Success!");
    var t := Attempts(task, language, Slug(task), Constant(code), ByAttempt(verdicts));
    assert t[0].verdict == Verdict(false, "Test failed");
    assert |t| >= 2;
    assert t[1].verdict == Verdict(true, "Success!");
  }

  /** Failure every time: three attempts, and the final error is the last
      diagnostic. */
  lemma GivesUpAfterThree(task: string, language: Language, code: string)
    ensures var t := Attempts(task, language, Slug(task), Constant(code), ByAttempt(k => Verdict(false, "Always fails")));
            OutcomeOf(t) == GaveUp(3, "Always fails", code)
  {
  }
}
