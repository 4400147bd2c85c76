/** The prompt `generate_code` sends to the model (src/code_assistant.py): a
    language-specific request for the task, followed, on a retry, by the
    previous attempt's diagnostic quoted verbatim. */
module Prompt {
  import opened Wrappers
  import opened Text
  import opened TaskLanguage

  const RustHeader: string := "\nWrite a complete Rust program for: "
  const RustRequirements: string :=
    "\n\nRequirements:\n- Include all necessary dependencies in Cargo.toml format at the top as comments\n- Include comprehensive tests using #[cfg(test)]\n- Make sure the code compiles and all tests pass\n- Use proper error handling\n"
  const PythonHeader: string := "\nWrite a complete Python program for: "
  const PythonRequirements: string :=
    "\n\nRequirements:\n- Include all necessary imports\n- Include comprehensive tests using pytest or unittest\n- Make sure the code runs without errors\n- Use proper error handling\n"
  const FeedbackIntro: string := "\n\nIMPORTANT: The previous attempt failed with this error:\n"
  const FeedbackOutro: string := "\n\nPlease fix this error in your new implementation.\n"

  function Header(language: Language): string {
    match language
    case Rust => RustHeader
    case Python => PythonHeader
  }

  function Requirements(language: Language): string {
    match language
    case Rust => RustRequirements
    case Python => PythonRequirements
  }

  /** The request without feedback. */
  function BasePrompt(task: string, language: Language): string {
    Header(language) + task + Requirements(language)
  }

  /** The feedback block for a diagnostic. */
  function Feedback(error: string): string {
    FeedbackIntro + error + FeedbackOutro
  }

  /** The diagnostic a prompt actually carries: Python's `if previous_error:`
      skips both a missing and an empty one. */
  function Carried(previous: Option<string>): Option<string> {
    if previous.Some? && previous.value != "" then previous else None
  }

  /** The full prompt for one attempt. */
  function BuildPrompt(task: string, language: Language, previous: Option<string>): (p: string)
    ensures Contains(p, task)
    ensures StartsWith(p, BasePrompt(task, language))
    ensures Carried(previous).Some? ==> Contains(p, Feedback(previous.value))
    ensures Carried(previous).None? ==> p == BasePrompt(task, language)
  {
    var base := BasePrompt(task, language);
    ContainsInfix(Header(language), task, Requirements(language));
    if Carried(previous).Some? then
      ContainsPrefix(base, Feedback(previous.value), task);
      ContainsInfix(base, Feedback(previous.value), "");
      assert base + Feedback(previous.value) + "" == base + Feedback(previous.value);
      assert (base + Feedback(previous.value))[..|base|] == base;
      base + Feedback(previous.value)
    else
      base
  }

  /** The diagnostic read back out of a prompt for the given task and language. */
  function RecoverError(p: string, task: string, language: Language): (e: Option<string>)
    ensures e.Some? ==> |p| == |BasePrompt(task, language)| + |Feedback(e.value)|
  {
    var lo := |BasePrompt(task, language)| + |FeedbackIntro|;
    if |p| > lo + |FeedbackOutro| then Some(p[lo..|p| - |FeedbackOutro|]) else None
  }

  /** Cutting the known parts off `base + intro + e + outro` gives `e` back. */
  lemma CutKnownParts(base: string, intro: string, e: string, outro: string)
    ensures var p := base + (intro + e + outro);
            && |p| - |outro| - (|base| + |intro|) == |e|
            && p[|base| + |intro|..|p| - |outro|] == e
  {
    assert base + (intro + e + outro) == base + intro + e + outro;
    Middle(base + intro, e, outro);
  }

  /** The prompt quotes the previous diagnostic verbatim: it can be read back
      from the prompt, and the prompt of a first attempt carries none. */
  lemma RecoverBuiltError(task: string, language: Language, previous: Option<string>)
    ensures RecoverError(BuildPrompt(task, language, previous), task, language) == Carried(previous)
  {
    if Carried(previous).Some? {
      CutKnownParts(BasePrompt(task, language), FeedbackIntro, previous.value, FeedbackOutro);
    }
  }

  /** Different diagnostics give different prompts. */
  lemma PromptDeterminesError(task: string, language: Language, a: Option<string>, b: Option<string>)
    requires BuildPrompt(task, language, a) == BuildPrompt(task, language, b)
    ensures Carried(a) == Carried(b)
  {
    RecoverBuiltError(task, language, a);
    RecoverBuiltError(task, language, b);
  }
}
