/** The multiple-choice question: a single answer chosen with radio buttons,
    or several with check boxes when the expected answer is a list. */
module MultipleChoice {
  import opened Util

  /** The expected answer: one option index, or a list of them. */
  datatype Expected = One(index: nat) | Many(indices: seq<nat>)

  /** The answer handed back: one option index, or a list of them. */
  datatype McAnswer = Single(index: nat) | Multi(indices: seq<nat>)

  /** `isMultipleSelect`: check boxes exactly when the expected answer is a
      list. */
  predicate IsMultipleSelect(expected: Expected)
  {
    expected.Many?
  }

  /** `Array.isArray(answer) ? answer : []`. */
  function CurrentAnswers(answer: Option<McAnswer>): seq<nat>
  {
    if answer.Some? && answer.value.Multi? then answer.value.indices else []
  }

  /** Checking an option appends it. */
  function Check(current: seq<nat>, k: nat): (r: seq<nat>)
    ensures k in r
    ensures forall x :: x in r <==> x in current || x == k
    ensures |r| == |current| + 1 && r[..|current|] == current && r[|current|] == k
  {
    current + [k]
  }

  /** Unchecking an option removes every occurrence of it and keeps the rest
      in order. */
  function Uncheck(current: seq<nat>, k: nat): (r: seq<nat>)
    ensures k !in r
    ensures forall x :: x != k ==> (x in r <==> x in current)
    ensures IsSubseq(r, current)
    ensures forall x :: multiset(r)[x] == if x != k then multiset(current)[x] else 0
  {
    var keep := (a: nat) => a != k;
    FilterMultiset(current, keep);
    var r := Filter(current, keep);
    assert forall i :: 0 <= i < |r| ==> r[i] != k;
    r
  }

  /** `handleMultipleChoice(optionIndex, checked)`. */
  function HandleMultipleChoice(answer: Option<McAnswer>, k: nat, checked: bool): McAnswer
  {
    var current := CurrentAnswers(answer);
    Multi(if checked then Check(current, k) else Uncheck(current, k))
  }

  /** A check box: checked when the answer is a list holding its index. */
  predicate CheckBoxChecked(answer: Option<McAnswer>, k: nat)
  {
    answer.Some? && answer.value.Multi? && k in answer.value.indices
  }

  /** After a click on a check box, the box shows what was clicked and the
      other boxes are as they were. */
  lemma ClickedBoxShowsClick(answer: Option<McAnswer>, k: nat, checked: bool, j: nat)
    ensures var a := Some(HandleMultipleChoice(answer, k, checked));
      && (CheckBoxChecked(a, k) <==> checked)
      && (j != k ==> (CheckBoxChecked(a, j) <==> CheckBoxChecked(answer, j)))
  {
  }

  /** Checking an unchecked box and unchecking it again gives back the list. */
  lemma CheckThenUncheck(current: seq<nat>, k: nat)
    requires k !in current
    ensures Uncheck(Check(current, k), k) == current
  {
    FilterAppendRejected(current, k, a => a != k);
  }

  /** The value a radio button carries: `index.toString()`. */
  function RadioValue(index: nat): string
  {
    NatToString(index)
  }

  /** `handleSingleChoice`: `Number.parseInt(value)`; `None` is `NaN`. */
  function HandleSingleChoice(value: string): Option<nat>
  {
    ParseInt(value)
  }

  /** Choosing a radio button records its index. */
  lemma RadioRecordsItsIndex(index: nat)
    ensures HandleSingleChoice(RadioValue(index)) == Some(index)
  {
    ParseIntOfNatToString(index);
  }

  /** The radio group's value is `answer?.toString()`: a button shows selected
      when its value equals it. */
  predicate RadioSelected(answer: Option<McAnswer>, index: nat)
  {
    answer.Some? && answer.value.Single? && RadioValue(answer.value.index) == RadioValue(index)
  }

  /** Exactly the button of the recorded index shows selected. */
  lemma RadioSelectedIff(answer: Option<McAnswer>, index: nat)
    ensures RadioSelected(answer, index) <==> answer == Some(Single(index))
  {
    if RadioSelected(answer, index) {
      NatToStringInjective(answer.value.index, index);
    }
  }

  /** `String.fromCharCode(65 + index)`: A, B, C, … for the first 26
      options. Dafny's characters stop below the surrogate range, hence the
      bound. */
  function OptionLetter(index: nat): (c: char)
    requires 65 + index < 0xD800
    ensures c as int == 65 + index
    ensures index < 26 ==> 'A' <= c <= 'Z'
  {
    (65 + index) as char
  }

  /** Different options carry different letters. */
  lemma OptionLettersDistinct(i: nat, j: nat)
    requires 65 + i < 0xD800 && 65 + j < 0xD800 && i != j
    ensures OptionLetter(i) != OptionLetter(j)
  {
    assert OptionLetter(i) as int == 65 + i;
    assert OptionLetter(j) as int == 65 + j;
  }
}
