/** Validation of the answers typed at the plain prompts (internal/ui/prompt.go). */
module Prompt {
  import opened Results
  import opened Text

  /** What reading one line from standard input produced: the line, or a read error (for example end of input). */
  datatype ReadOutcome = Line(text: string) | ReadFailed(reason: string)

  /** `PromptUsername` after the line is read: the trimmed line, or an error when it is blank. */
  function PromptUsername(input: ReadOutcome): (r: Result<string, string>)
    ensures input.ReadFailed? ==> r == Err(input.reason)
    ensures input.Line? && |TrimSpace(input.text)| == 0 ==> r == Err("username cannot be empty")
    ensures input.Line? && |TrimSpace(input.text)| > 0 ==> r == Ok(TrimSpace(input.text))
    ensures r.Ok? ==> |r.value| > 0 && !IsSpace(r.value[0]) && !IsSpace(r.value[|r.value| - 1])
  {
    match input
    case ReadFailed(reason) => Err(reason)
    case Line(text) =>
      var name := TrimSpace(text);
      if |name| == 0 then Err("username cannot be empty") else Ok(name)
  }

  /** `PromptConfirmation` after the line is read: yes only for an explicit "y" or "yes", in any letter case. */
  function PromptConfirmation(input: ReadOutcome): (r: Result<bool, string>)
    ensures input.ReadFailed? <==> r.Err?
    ensures r.Ok? ==> (r.value <==> TrimSpace(ToLower(input.text)) in {"y", "yes"})
  {
    match input
    case ReadFailed(reason) => Err(reason)
    case Line(text) =>
      var answer := TrimSpace(ToLower(text));
      Ok(answer == "y" || answer == "yes")
  }

  /** The text printed before reading a confirmation. */
  function ConfirmationPrompt(message: string): (p: string)
    ensures |p| == |message| + 8
    ensures p[..|message|] == message
    ensures p[|message|..] == " (y/N): "
  {
    message + " (y/N): "
  }

  /** The question `PromptRetry` asks about a failed operation. */
  function RetryMessage(operation: string): (m: string)
    ensures |m| == |operation| + 36
    ensures m[..10] == "Failed to " && m[10 + |operation|..] == ". Would you like to retry?"
  {
    "Failed to " + operation + ". Would you like to retry?"
  }

  /** The operation named in a retry question, recovered from its text. */
  function RetryOperation(m: string): string
    requires |m| >= 36
  {
    m[10..|m| - 26]
  }

  /** The retry question names exactly the operation it was built from. */
  lemma RetryMessageRoundTrip(operation: string)
    ensures RetryOperation(RetryMessage(operation)) == operation
  {
    var m := RetryMessage(operation);
    assert m == "Failed to " + operation + ". Would you like to retry?";
    assert m[10..|m| - 26] == operation;
  }

  /** `PromptRetry`: the prompt shown, and the answer read, exactly as for a confirmation. */
  function PromptRetry(operation: string, input: ReadOutcome): (r: (string, Result<bool, string>))
    ensures r.1 == PromptConfirmation(input)
    ensures |r.0| == |operation| + 44
    ensures RetryOperation(r.0[..|r.0| - 8]) == operation
  {
    RetryMessageRoundTrip(operation);
    var shown := ConfirmationPrompt(RetryMessage(operation));
    assert shown[..|shown| - 8] == RetryMessage(operation);
    (shown, PromptConfirmation(input))
  }

  /** A username made only of white space is refused. */
  lemma BlankUsernameRejected(text: string)
    requires forall i :: 0 <= i < |text| ==> IsSpace(text[i])
    ensures PromptUsername(Line(text)).Err?
  {
    TrimSpaceOfBlank(text);
  }

  /** An empty reply, or one of white space only, answers No. */
  lemma ConfirmationDefaultsToNo(text: string)
    requires forall i :: 0 <= i < |text| ==> IsSpace(text[i])
    ensures PromptConfirmation(Line(text)) == Ok(false)
  {
    var lower := ToLower(text);
    forall i | 0 <= i < |lower| ensures IsSpace(lower[i]) {
      LowerKeepsSpace(text[i]);
    }
    TrimSpaceOfBlank(lower);
  }

  /** "Y", "yes", "YES" and the like, typed with a trailing newline, answer Yes. */
  lemma ConfirmationAcceptsYes(word: string)
    requires ToLower(word) == "y" || ToLower(word) == "yes"
    ensures PromptConfirmation(Line(word + "\n")) == Ok(true)
  {
    var lw := ToLower(word);
    assert ToLower(word + "\n") == lw + "\n";
    assert lw[0] == 'y' && (lw[|lw| - 1] == 'y' || lw[|lw| - 1] == 's');
    TrimSpaceOfLine(lw);
  }
}
