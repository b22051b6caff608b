/** Building the one prompt and the one request the program sends
    (src/cmd/sai/main.go, lines 88-106). */
module Prompt {
  import opened Wire

  /** The fixed instruction that `--code` / `-o` puts in front of everything. */
  const CodeOnlyInstruction: string :=
    "You are a code-only assistant. Return ONLY the code without any explanations, backticks, or markdown formatting. Do not include any text before or after the code."

  /** What separates the instruction, the context and the input. */
  const Separator: string := "\n\n"

  const UserRole: string := "user"

  /** The prompt for the text read from standard input, the `--context`
      value and the `--code` flag. It always ends with the input; a
      non-empty context sits right before it, and the code-only instruction
      is outermost; with neither, the prompt is the input itself. */
  function BuildPrompt(input: string, context: string, codeOnly: bool): (prompt: string)
    ensures |input| <= |prompt| && prompt[|prompt| - |input|..] == input
    ensures context != [] ==>
      |context + Separator + input| <= |prompt| &&
      prompt[|prompt| - |context + Separator + input|..] == context + Separator + input
    ensures codeOnly ==> HasPrefix(prompt, CodeOnlyInstruction + Separator)
    ensures prompt == input <==> context == [] && !codeOnly
    ensures |prompt| == (if codeOnly then |CodeOnlyInstruction| + |Separator| else 0)
                      + (if context != [] then |context| + |Separator| else 0) + |input|
  {
    var withContext := if context != [] then context + Separator + input else input;
    if codeOnly then CodeOnlyInstruction + Separator + withContext else withContext
  }

  /** With both flags the order is instruction, context, input. */
  lemma PromptOrder(input: string, context: string)
    requires context != []
    ensures BuildPrompt(input, context, true)
         == CodeOnlyInstruction + Separator + context + Separator + input
  {
  }

  /** The flags add a prefix that does not depend on the input, so different
      inputs never give the same prompt. */
  lemma PromptInjective(a: string, b: string, context: string, codeOnly: bool)
    requires BuildPrompt(a, context, codeOnly) == BuildPrompt(b, context, codeOnly)
    ensures a == b
  {
  }

  /** The user prompt a request carries: the content of its single user
      message, if it has exactly one. */
  function PromptOf(req: Request): Option<string>
  {
    if |req.messages| == 1 && req.messages[0].role == UserRole
    then Some(req.messages[0].content) else None
  }

  /** The request for a model and a prompt: one user message with the
      prompt as content, streaming on. */
  function NewRequest(model: string, prompt: string): (req: Request)
    ensures PromptOf(req) == Some(prompt)
    ensures req.model == model && req.stream
    ensures |req.messages| == 1
  {
    Request(model, [Message(UserRole, prompt)], true)
  }

  /** From the text read on standard input to the request sent: the request
      carries the input at the end of its only message. */
  lemma RequestEndsWithInput(model: string, input: string, context: string, codeOnly: bool)
    ensures var req := NewRequest(model, BuildPrompt(input, context, codeOnly));
      PromptOf(req).Some? && req.stream &&
      |input| <= |PromptOf(req).value| &&
      PromptOf(req).value[|PromptOf(req).value| - |input|..] == input
  {
  }
}
