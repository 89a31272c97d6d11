/**
 * The resume decision of `load()`: with no checkpoints the run starts fresh
 * without asking; otherwise the operator is asked again and again until the
 * answer is exactly "start" or exactly one of the listed checkpoint names.
 *
 * The operator's answers are the whole of the standard input, one line per
 * answer; reading past its end makes `raw_input` raise `EOFError`, which
 * aborts the run.
 */
module ResumePrompt {

  /** The token that asks for training from scratch. */
  const StartToken: string := "start"

  datatype Decision = Fresh | Restore(name: string)

  /**
   * How the prompt ends: decided after reading `consumed` answers, or with
   * `EOFError` because the input ended before an accepted answer.
   */
  datatype PromptState = Decided(decision: Decision, consumed: nat) | InputExhausted

  predicate Accepted(checkpoints: seq<string>, answer: string)
  {
    answer == StartToken || answer in checkpoints
  }

  /**
   * What an accepted answer means. "start" is checked first, so it means a
   * fresh start even when a checkpoint is itself named "start"; the error
   * branch for an answer that is neither cannot be reached.
   */
  function Interpret(checkpoints: seq<string>, answer: string): (d: Decision)
    requires Accepted(checkpoints, answer)
    ensures d == Fresh <==> answer == StartToken
    ensures d.Restore? ==> d.name == answer && d.name in checkpoints
  {
    if answer == StartToken then Fresh
    else if answer in checkpoints then Restore(answer)
    else assert false; Fresh
  }

  /** The re-prompting loop over the remaining answers. */
  function Prompt(checkpoints: seq<string>, answers: seq<string>): (r: PromptState)
    ensures r.InputExhausted? <==> forall i :: 0 <= i < |answers| ==> !Accepted(checkpoints, answers[i])
    ensures r.Decided? ==>
      && 1 <= r.consumed <= |answers|
      && Accepted(checkpoints, answers[r.consumed - 1])
      && (forall i :: 0 <= i < r.consumed - 1 ==> !Accepted(checkpoints, answers[i]))
      && r.decision == Interpret(checkpoints, answers[r.consumed - 1])
  {
    if |answers| == 0 then InputExhausted
    else if Accepted(checkpoints, answers[0]) then Decided(Interpret(checkpoints, answers[0]), 1)
    else
      match Prompt(checkpoints, answers[1..])
      case InputExhausted => InputExhausted
      case Decided(d, n) => Decided(d, n + 1)
  }

  /** `load()`: no prompt at all without checkpoints, otherwise the prompt loop. */
  function Load(checkpoints: seq<string>, answers: seq<string>): (r: PromptState)
    ensures |checkpoints| == 0 ==> r == Decided(Fresh, 0)
    ensures |checkpoints| > 0 && r.Decided? ==>
      && 1 <= r.consumed <= |answers|
      && (forall i :: 0 <= i < r.consumed - 1 ==> answers[i] != StartToken && answers[i] !in checkpoints)
      && (r.decision == Fresh <==> answers[r.consumed - 1] == StartToken)
    ensures r.Decided? && r.decision.Restore? ==>
      && r.decision.name in checkpoints
      && r.decision.name != StartToken
      && r.decision.name == answers[r.consumed - 1]
    ensures r.InputExhausted? <==>
      |checkpoints| > 0 && forall i :: 0 <= i < |answers| ==> answers[i] != StartToken && answers[i] !in checkpoints
  {
    if |checkpoints| == 0 then Decided(Fresh, 0) else Prompt(checkpoints, answers)
  }

  /**
   * The value `load()` returns once it has decided: true iff checkpoints
   * exist and the accepted answer is a listed name rather than `"start"`.
   */
  function Restored(checkpoints: seq<string>, answers: seq<string>): (restored: bool)
    requires Load(checkpoints, answers).Decided?
    ensures var n := Load(checkpoints, answers).consumed;
      restored <==> |checkpoints| > 0 && 1 <= n <= |answers| && answers[n - 1] != StartToken
    ensures var n := Load(checkpoints, answers).consumed;
      restored ==> 1 <= n <= |answers| && answers[n - 1] in checkpoints
  {
    Load(checkpoints, answers).decision.Restore?
  }

  /** The first accepted answer fixes the outcome: answers after it are never read. */
  lemma {:induction false} LaterAnswersIgnored(checkpoints: seq<string>, answers: seq<string>, later: seq<string>)
    requires Load(checkpoints, answers).Decided?
    ensures Load(checkpoints, answers + later) == Load(checkpoints, answers)
  {
    if |checkpoints| > 0 {
      PromptPrefix(checkpoints, answers, later);
    }
  }

  lemma {:induction false} PromptPrefix(checkpoints: seq<string>, answers: seq<string>, later: seq<string>)
    requires Prompt(checkpoints, answers).Decided?
    ensures Prompt(checkpoints, answers + later) == Prompt(checkpoints, answers)
  {
    assert (answers + later)[0] == answers[0];
    if !Accepted(checkpoints, answers[0]) {
      assert (answers + later)[1..] == answers[1..] + later;
      PromptPrefix(checkpoints, answers[1..], later);
    }
  }

  /** A rejected answer only triggers another prompt: the outcome is that of the remaining answers, one read later. */
  lemma RejectedAnswerReprompts(checkpoints: seq<string>, answer: string, rest: seq<string>)
    requires |checkpoints| > 0
    requires !Accepted(checkpoints, answer)
    ensures Load(checkpoints, [answer] + rest) ==
      match Load(checkpoints, rest)
      case InputExhausted => InputExhausted
      case Decided(d, n) => Decided(d, n + 1)
  {
    assert ([answer] + rest)[1..] == rest;
  }

  /** Answering "start" first always starts fresh, even if a checkpoint is named "start". */
  lemma StartWins(checkpoints: seq<string>, rest: seq<string>)
    requires StartToken in checkpoints
    ensures Load(checkpoints, [StartToken] + rest) == Decided(Fresh, 1)
  {
  }
}
