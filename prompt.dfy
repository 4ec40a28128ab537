/**
 * The prompt the reply stage sends to the chat capability for one question:
 * `Q: <question>?` on one line and `A:` on the next.
 */
module PromptFormat {
  import opened Wrappers

  const Lead := "Q: "
  const Tail := "?\nA:"

  /** The prompt for `question`. */
  function Prompt(question: string): (p: string)
    ensures |p| == |Lead| + |question| + |Tail|
    ensures p[..|Lead|] == Lead && p[|p| - |Tail|..] == Tail
  {
    Lead + question + Tail
  }

  /** Recovers the question from a prompt, or `None` when the text does not
      have the prompt's frame. */
  function ParsePrompt(p: string): Option<string> {
    if |Lead| + |Tail| <= |p| && p[..|Lead|] == Lead && p[|p| - |Tail|..] == Tail
    then Some(p[|Lead|..|p| - |Tail|])
    else None
  }

  /** Stripping the frame off a prompt gives back the question exactly. */
  lemma ParsePromptOfPrompt(question: string)
    ensures ParsePrompt(Prompt(question)) == Some(question)
  {
    var p := Prompt(question);
    assert p[|Lead|..|p| - |Tail|] == question;
  }

  /** Every text with the prompt's frame is the prompt of the question inside it. */
  lemma PromptOfParsePrompt(p: string)
    ensures ParsePrompt(p).Some? ==> Prompt(ParsePrompt(p).value) == p
  {
    if ParsePrompt(p).Some? {
      var q := p[|Lead|..|p| - |Tail|];
      assert p == p[..|Lead|] + q + p[|p| - |Tail|..];
    }
  }

  /** Different questions give different prompts. */
  lemma PromptInjective(q1: string, q2: string)
    ensures Prompt(q1) == Prompt(q2) ==> q1 == q2
  {
    ParsePromptOfPrompt(q1);
    ParsePromptOfPrompt(q2);
  }
}
