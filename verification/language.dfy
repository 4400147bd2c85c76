/** Language selection, the no-cargo fallback and the audit file names of the
    self-healing code assistant (src/code_assistant.py, `solve_task`). */
module TaskLanguage {
  import opened Text

  datatype Language = Rust | Python

  /** A task after language resolution: the language to write and the
      (possibly rewritten) task text handed to the generator. */
  datatype Resolution = Resolution(language: Language, task: string)

  /** Rust is requested exactly when the lowercased task mentions "rust". */
  function Requested(task: string): Language {
    if Contains(Lower(task), "rust") then Rust else Python
  }

  /** The literal rewrite applied when cargo is missing. */
  function FallbackTask(task: string): string {
    Replace(Replace(task, "rust", "python"), "Rust", "Python")
  }

  /** The language and task text `solve_task` works with, given whether cargo
      is installed on the host. */
  function Resolve(task: string, cargoAvailable: bool): (r: Resolution)
    ensures r.language == Rust <==> Contains(Lower(task), "rust") && cargoAvailable
    ensures r.language == Rust ==> r.task == task
    ensures !Contains(Lower(task), "rust") ==> r == Resolution(Python, task)
    ensures r.language == Python && Contains(Lower(task), "rust") ==>
              && r.task == FallbackTask(task)
              && !Contains(r.task, "rust") && !Contains(r.task, "Rust")
  {
    if Requested(task) == Rust && !cargoAvailable then
      FallbackRemovesKeywords(task);
      Resolution(Python, FallbackTask(task))
    else
      Resolution(Requested(task), task)
  }

  /** After the rewrite neither "rust" nor "Rust" is left in the task text. */
  lemma FallbackRemovesKeywords(task: string)
    ensures !Contains(FallbackTask(task), "rust")
    ensures !Contains(FallbackTask(task), "Rust")
  {
    var t1 := Replace(task, "rust", "python");
    ReplaceLeavesNo(task, "rust", "python", "rust");
    ReplaceLeavesNo(t1, "Rust", "Python", "rust");
    ReplaceLeavesNo(t1, "Rust", "Python", "Rust");
  }

  /** A task that names neither spelling is not rewritten. */
  lemma FallbackKeepsUnrelatedText(task: string)
    requires !Contains(task, "rust") && !Contains(task, "Rust")
    ensures FallbackTask(task) == task
  {
    ReplaceAbsent(task, "rust", "python");
    ReplaceAbsent(task, "Rust", "Python");
  }

  /** The character of the audit-file slug standing for one task character. */
  function SlugChar(c: char): char {
    if IsAsciiAlnum(c) then c else '_'
  }

  predicate IsSlugChar(c: char) {
    ('a' <= c <= 'z') || ('0' <= c <= '9') || c == '_'
  }

  const SlugLength: nat := 30

  /** The task text lowercased, every character outside [a-zA-Z0-9] replaced by
      an underscore, cut to 30 characters. */
  function Slug(task: string): (r: string)
    ensures |r| == if |task| < SlugLength then |task| else SlugLength
    ensures forall i :: 0 <= i < |r| ==> r[i] == SlugChar(LowerChar(task[i]))
    ensures forall i :: 0 <= i < |r| ==> IsSlugChar(r[i])
  {
    var lowered := Lower(task);
    var sanitized := seq(|lowered|, i requires 0 <= i < |lowered| => SlugChar(lowered[i]));
    if |sanitized| <= SlugLength then sanitized else sanitized[..SlugLength]
  }

  function Extension(language: Language): string {
    match language
    case Rust => ".rs"
    case Python => ".py"
  }

  /** `<slug>_attempt_<k>.<rs|py>`, the file each attempt's code is saved to. */
  function Filename(slug: string, attempt: nat, language: Language): string {
    slug + "_attempt_" + NatToString(attempt) + Extension(language)
  }

  /** Audit files of one task never collide: the name determines the attempt
      number and the language. */
  lemma FilenameInjective(slug: string, a: nat, la: Language, b: nat, lb: Language)
    requires Filename(slug, a, la) == Filename(slug, b, lb)
    ensures a == b && la == lb
  {
    var prefix := slug + "_attempt_";
    var fa := Filename(slug, a, la);
    var da, db := NatToString(a), NatToString(b);
    assert fa == prefix + (da + Extension(la));
    assert Filename(slug, b, lb) == prefix + (db + Extension(lb));
    assert da + Extension(la) == db + Extension(lb) by {
      assert fa[|prefix|..] == da + Extension(la);
      assert Filename(slug, b, lb)[|prefix|..] == db + Extension(lb);
    }
    assert |da| == |db|;
    assert da == (da + Extension(la))[..|da|];
    assert db == (db + Extension(lb))[..|db|];
    NatToStringInjective(a, b);
    assert Extension(la) == (da + Extension(la))[|da|..];
    assert Extension(lb) == (db + Extension(lb))[|db|..];
  }

  /** The file names checked into the repository come out of these rules. */
  lemma CheckedInFilenames()
    ensures Filename(Slug("create a binary search tree in Python"), 1, Python)
            == "create_a_binary_search_tree_in_attempt_1.py"
    ensures Filename(Slug("implement fibonacci with memoization in Python"), 1, Python)
            == "implement_fibonacci_with_memoi_attempt_1.py"
  {
    BstSlug();
    FibonacciSlug();
    assert NatToString(1) == "1";
  }

  // The literal slugs are checked a few characters at a time.
  lemma BstSlug0()
    ensures forall i | 0 <= i < 10 :: Slug("create a binary search tree in Python")[i] == "create_a_binary_search_tree_in"[i]
  {
  }

  lemma BstSlug1()
    ensures forall i | 10 <= i < 20 :: Slug("create a binary search tree in Python")[i] == "create_a_binary_search_tree_in"[i]
  {
  }

  lemma BstSlug2()
    ensures forall i | 20 <= i < 30 :: Slug("create a binary search tree in Python")[i] == "create_a_binary_search_tree_in"[i]
  {
  }

  lemma BstSlug()
    ensures Slug("create a binary search tree in Python") == "create_a_binary_search_tree_in"
  {
    BstSlug0(); BstSlug1(); BstSlug2();
  }

  lemma FibonacciSlug0()
    ensures forall i | 0 <= i < 10 :: Slug("implement fibonacci with memoization in Python")[i] == "implement_fibonacci_with_memoi"[i]
  {
  }

  lemma FibonacciSlug1()
    ensures forall i | 10 <= i < 20 :: Slug("implement fibonacci with memoization in Python")[i] == "implement_fibonacci_with_memoi"[i]
  {
  }

  lemma FibonacciSlug2()
    ensures forall i | 20 <= i < 30 :: Slug("implement fibonacci with memoization in Python")[i] == "implement_fibonacci_with_memoi"[i]
  {
  }

  lemma FibonacciSlug()
    ensures Slug("implement fibonacci with memoization in Python") == "implement_fibonacci_with_memoi"
  {
    FibonacciSlug0(); FibonacciSlug1(); FibonacciSlug2();
  }

  lemma QuicksortSlug0()
    ensures forall i | 0 <= i < 13 :: Slug("write quicksort in Python")[i] == "write_quicksort_in_python"[i]
  {
  }

  lemma QuicksortSlug1()
    ensures forall i | 13 <= i < 25 :: Slug("write quicksort in Python")[i] == "write_quicksort_in_python"[i]
  {
  }

  lemma QuicksortSlug()
    ensures Slug("write quicksort in Python") == "write_quicksort_in_python"
  {
    QuicksortSlug0(); QuicksortSlug1();
  }

  /** Without cargo, "write quicksort in Rust" is solved as a Python task saved
      under write_quicksort_in_python_attempt_1.py. */
  lemma QuicksortFallback()
    ensures Resolve("write quicksort in Rust", false) == Resolution(Python, "write quicksort in Python")
    ensures Filename(Slug("write quicksort in Python"), 1, Python) == "write_quicksort_in_python_attempt_1.py"
  {
    QuicksortResolves();
    QuicksortFile();
  }

  lemma QuicksortResolves()
    ensures Resolve("write quicksort in Rust", false) == Resolution(Python, "write quicksort in Python")
  {
    QuicksortRequestsRust();
    QuicksortRewrite();
  }

  lemma QuicksortFile()
    ensures Filename(Slug("write quicksort in Python"), 1, Python) == "write_quicksort_in_python_attempt_1.py"
  {
    QuicksortSlug();
    assert NatToString(1) == "1";
  }

  lemma QuicksortRequestsRust()
    ensures Requested("write quicksort in Rust") == Rust
  {
    var lowered := Lower("write quicksort in Rust");
    forall i | 0 <= i < 23 ensures lowered[i] == "write quicksort in rust"[i] { }
    assert lowered[19..23] == "rust";
    ContainsAt(lowered, "rust", 19);
  }

  lemma QuicksortRewrite()
    ensures FallbackTask("write quicksort in Rust") == "write quicksort in Python"
  {
    NoLowercaseRust();
    ReplaceAbsent("write quicksort in Rust", "rust", "python");
    QuicksortPieces();
    ReplaceForeignPrefix("write quicksort in ", "Rust", "Rust", "Python");
  }

  lemma QuicksortPieces()
    ensures "write quicksort in Rust" == "write quicksort in " + "Rust"
    ensures 'R' !in "write quicksort in "
    ensures Replace("Rust", "Rust", "Python") == "Python"
    ensures "write quicksort in " + "Python" == "write quicksort in Python"
  {
  }

  /** The task's lower-case r's are followed by 'i' and 't', never by 'u'. */
  lemma NoLowercaseRust()
    ensures !Contains("write quicksort in Rust", "rust")
  {
    NoRuBefore11();
    NoRuFrom11();
    NoPairNoContains("write quicksort in Rust", "rust");
  }

  lemma NoRuBefore11()
    ensures forall i | 0 <= i < 11 :: !("write quicksort in Rust"[i] == 'r' && "write quicksort in Rust"[i + 1] == 'u')
  {
  }

  lemma NoRuFrom11()
    ensures forall i | 11 <= i < 22 :: !("write quicksort in Rust"[i] == 'r' && "write quicksort in Rust"[i + 1] == 'u')
  {
  }

  /** The rewrite is literal: a task spelling the language in another casing is
      not rewritten although it requests Rust, so the Python run is handed a task
      that still asks for Rust. */
  lemma FallbackKeepsOtherCasings(task: string)
    requires Contains(Lower(task), "rust")
    requires !Contains(task, "rust") && !Contains(task, "Rust")
    ensures Resolve(task, false) == Resolution(Python, task)
    ensures Requested(Resolve(task, false).task) == Rust
  {
    FallbackKeepsUnrelatedText(task);
  }

  /** "RUST" is such a task; and words that merely contain "rust" are rewritten. */
  lemma FallbackIsLiteral()
    ensures Resolve("RUST", false) == Resolution(Python, "RUST")
    ensures FallbackTask("trust") == "tpython"
  {
    ShoutedRustKept();
    TrustRewritten();
  }

  lemma ShoutedRustKept()
    ensures Resolve("RUST", false) == Resolution(Python, "RUST")
  {
    assert Lower("RUST") == "rust";
    ContainsAt("rust", "rust", 0);
    assert "RUST"[..4][1] == 'U';
    assert !StartsWith("RUST", "rust") && !StartsWith("RUST", "Rust");
    NotContainsShort("UST", "rust");
    NotContainsShort("UST", "Rust");
    assert "RUST"[1..] == "UST";
    FallbackKeepsOtherCasings("RUST");
  }

  lemma TrustRewritten()
    ensures FallbackTask("trust") == "tpython"
  {
    assert Replace("trust", "rust", "python") == "tpython";
    if Contains("tpython", "Rust") {
      ContainsFirstChar("tpython", "Rust");
    }
    ReplaceAbsent("tpython", "Rust", "Python");
  }
}
