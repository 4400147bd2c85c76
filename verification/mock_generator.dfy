/** The deterministic stand-in for the language model that `CodeAssistant`
    falls back to when the OpenAI client cannot be created
    (src/code_assistant.py): it reads the prompt and picks one of six canned
    programs by keyword priority. The program texts themselves are not part of
    this model; a `Canned` value names the one chosen. */
module MockGenerator {
  import opened Text
  import opened TaskLanguage
  import opened Wrappers
  import opened Prompt

  datatype Canned = RustQuicksort | RustHello | PythonQuicksort | PythonTree | PythonFibonacci | PythonHello

  /** The canned program chosen for a prompt: "rust" first, then, inside each
      language, "quicksort", then (Python only) "binary search tree", then
      "fibonacci" together with "memoization", else a hello-world program. */
  function Choose(prompt: string): (c: Canned)
    ensures c in {RustQuicksort, RustHello} <==> Contains(Lower(prompt), "rust")
    ensures c in {RustQuicksort, PythonQuicksort} <==> Contains(Lower(prompt), "quicksort")
    ensures var p := Lower(prompt);
            && (c == RustQuicksort <==> Contains(p, "rust") && Contains(p, "quicksort"))
            && (c == RustHello <==> Contains(p, "rust") && !Contains(p, "quicksort"))
            && (c == PythonQuicksort <==> !Contains(p, "rust") && Contains(p, "quicksort"))
    ensures var p := Lower(prompt);
            var plain := !Contains(p, "rust") && !Contains(p, "quicksort");
            && (c == PythonTree <==> plain && Contains(p, "binary search tree"))
            && (c == PythonFibonacci <==>
                  plain && !Contains(p, "binary search tree") && Contains(p, "fibonacci") && Contains(p, "memoization"))
            && (c == PythonHello <==>
                  plain && !Contains(p, "binary search tree") && !(Contains(p, "fibonacci") && Contains(p, "memoization")))
  {
    var p := Lower(prompt);
    if Contains(p, "rust") then
      if Contains(p, "quicksort") then RustQuicksort else RustHello
    else if Contains(p, "quicksort") then PythonQuicksort
    else if Contains(p, "binary search tree") then PythonTree
    else if Contains(p, "fibonacci") && Contains(p, "memoization") then PythonFibonacci
    else PythonHello
  }

  /** The language of the canned program. */
  function CannedLanguage(c: Canned): Language {
    if c in {RustQuicksort, RustHello} then Rust else Python
  }

  lemma RustHeaderMentionsRust()
    ensures Contains(Lower(RustHeader), "rust")
  {
    var h := Lower(RustHeader);
    forall i | 18 <= i < 22 ensures h[i] == "rust"[i - 18] { }
    assert h[18..22] == "rust";
    ContainsAt(h, "rust", 18);
  }

  /** A keyword that the lowercased task carries is seen in any prompt built
      for that task. */
  lemma PromptKeepsKeyword(task: string, language: Language, previous: Option<string>, keyword: string)
    requires Contains(Lower(task), keyword)
    ensures Contains(Lower(BuildPrompt(task, language, previous)), keyword)
  {
    ContainsLower(BuildPrompt(task, language, previous), task);
    ContainsTrans(Lower(BuildPrompt(task, language, previous)), Lower(task), keyword);
  }

  /** Every Rust prompt is answered with a Rust program. */
  lemma RustPromptGetsRust(task: string, previous: Option<string>)
    ensures CannedLanguage(Choose(BuildPrompt(task, Rust, previous))) == Rust
  {
    var p := BuildPrompt(task, Rust, previous);
    var base := BasePrompt(task, Rust);
    assert StartsWith(p, base);
    RustHeaderMentionsRust();
    assert base == RustHeader + (task + RustRequirements);
    LowerAppend(RustHeader, task + RustRequirements);
    ContainsPrefix(Lower(RustHeader), Lower(task + RustRequirements), "rust");
    assert p == base + p[|base|..];
    LowerAppend(base, p[|base|..]);
    ContainsPrefix(Lower(base), Lower(p[|base|..]), "rust");
  }

  /** A task mentioning quicksort is answered with a quicksort program, and one
      whose lowercased text says "rust" with a Rust program, whatever the
      prompt's language: after the no-cargo fallback a task spelled "RUST" is
      sent as a Python prompt and still receives Rust code. */
  lemma TaskKeywordsWin(task: string, language: Language, previous: Option<string>)
    ensures Contains(Lower(task), "quicksort") ==>
              Choose(BuildPrompt(task, language, previous)) in {RustQuicksort, PythonQuicksort}
    ensures Contains(Lower(task), "rust") ==>
              CannedLanguage(Choose(BuildPrompt(task, language, previous))) == Rust
  {
    if Contains(Lower(task), "quicksort") {
      PromptKeepsKeyword(task, language, previous, "quicksort");
    }
    if Contains(Lower(task), "rust") {
      PromptKeepsKeyword(task, language, previous, "rust");
    }
  }

  /** The fallback for "RUST" asks for Python and gets a Rust program. */
  lemma ShoutedRustGetsRustCode(previous: Option<string>)
    ensures Resolve("RUST", false).language == Python
    ensures CannedLanguage(Choose(BuildPrompt(Resolve("RUST", false).task, Python, previous))) == Rust
  {
    ShoutedRustKept();
    assert Lower("RUST") == "rust";
    ContainsAt("rust", "rust", 0);
    TaskKeywordsWin("RUST", Python, previous);
  }
}
