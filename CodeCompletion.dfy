/** The code-completion question: a simulated "test" of the typed code that
    only looks for a few VBA tokens, and the result panel it fills. */
module CodeCompletion {
  import opened Util

  /** The text shown after a successful check. */
  const SuccessOutput: string := "✓ Code compilé avec succès\n✓ Syntaxe correcte"

  /** The text shown after a failed check. */
  const ErrorOutput: string := "✗ Erreur de syntaxe\n✗ Vérifiez votre code"

  /** `hasValidSyntax`: the answer is present, not empty, and includes `=`,
      `For`, `If` or `Debug.Print`. */
  function HasValidSyntax(answer: Option<string>): bool
  {
    answer.Some? && answer.value != ""
    && (Contains(answer.value, "=") || Contains(answer.value, "For")
        || Contains(answer.value, "If") || Contains(answer.value, "Debug.Print"))
  }

  /** The four tokens the check looks for. */
  const Keywords: seq<string> := ["=", "For", "If", "Debug.Print"]

  /** Code that includes any one of the four tokens passes: the token makes
      it non-empty. */
  lemma KeywordPasses(code: string, k: int)
    requires 0 <= k < |Keywords| && Contains(code, Keywords[k])
    ensures HasValidSyntax(Some(code))
  {
    var i :| OccursAt(code, Keywords[k], i);
    assert code[i..i + |Keywords[k]|] == Keywords[k];
  }

  /** Code that includes none of the four tokens fails, whatever else it
      holds. */
  lemma NoKeywordFails(code: string)
    requires forall k :: 0 <= k < |Keywords| ==> !Contains(code, Keywords[k])
    ensures !HasValidSyntax(Some(code))
  {
    assert !Contains(code, Keywords[0]) && !Contains(code, Keywords[1]);
    assert !Contains(code, Keywords[2]) && !Contains(code, Keywords[3]);
  }

  /** Code without `=`, `F`, `I` and `D` fails, whatever else it holds. */
  lemma NoTokenFails(code: string)
    requires forall i :: 0 <= i < |code| ==> code[i] !in {'=', 'F', 'I', 'D'}
    ensures !HasValidSyntax(Some(code))
  {
    MissingFirstChar(code, "=");
    MissingFirstChar(code, "For");
    MissingFirstChar(code, "If");
    MissingFirstChar(code, "Debug.Print");
  }

  /** The "Tester le code" button is disabled without an answer (`!answer`). */
  predicate TestButtonDisabled(answer: Option<string>)
  {
    answer.None? || answer.value == ""
  }

  /** Code that passes could only have been tested with the button enabled. */
  lemma PassingCodeHasEnabledButton(answer: Option<string>)
    ensures HasValidSyntax(answer) ==> !TestButtonDisabled(answer)
    ensures TestButtonDisabled(answer) ==> !HasValidSyntax(answer)
  {
  }

  datatype TestResult = Success | Failure

  /** The panel under the editor: the outcome of the last check and its text. */
  class CodeTestPanel {
    var testResult: Option<TestResult>
    var testOutput: string

    /** The text always belongs to the outcome: none without one, otherwise
        the message of that outcome. */
    ghost predicate Valid()
      reads this
    {
      && (testResult.None? ==> testOutput == "")
      && (testResult == Some(Success) ==> testOutput == SuccessOutput)
      && (testResult == Some(Failure) ==> testOutput == ErrorOutput)
    }

    constructor ()
      ensures Valid() && testResult.None? && testOutput == ""
    {
      testResult := None;
      testOutput := "";
    }

    /** `handleCodeChange`: the new code is passed on and the panel cleared. */
    method HandleCodeChange(value: string) returns (passedOn: string)
      modifies this
      ensures Valid()
      ensures passedOn == value && testResult.None? && testOutput == ""
    {
      passedOn := value;
      testResult := None;
      testOutput := "";
    }

    /** `handleTestCode`: success exactly when the syntax check passes. */
    method HandleTestCode(answer: Option<string>)
      modifies this
      ensures Valid()
      ensures testResult == Some(if HasValidSyntax(answer) then Success else Failure)
    {
      if HasValidSyntax(answer) {
        testResult := Some(Success);
        testOutput := SuccessOutput;
      } else {
        testResult := Some(Failure);
        testOutput := ErrorOutput;
      }
    }
  }
}
