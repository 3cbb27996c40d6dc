/** The course detail page: the lessons and exercises of a course merged into
    one list ordered by `order_index`, the position of the selected item in
    it, the completion set kept in a cookie, and the validation of a
    multiple-choice exercise. */
module CourseDetail {
  import opened Util

  /** The tag the page adds to each item; `Untagged` is an item that comes
      from elsewhere without one (the course page's first selection). */
  datatype DisplayType = Lesson | Exercise | Untagged

  /** `test_cases[0]` of an exercise: the expected option, when it has one. */
  datatype TestCase = TestCase(correctOptionIndex: Option<int>)

  /** A lesson or exercise as the API returns it. `orderIndex` is `None` when
      the field is absent or null; `testCase` is `None` when there is no first
      test case. */
  datatype Record = Record(id: string, orderIndex: Option<int>, testCase: Option<TestCase>)

  datatype Item = Item(record: Record, displayType: DisplayType)

  // ---------------------------------------------------------------- combined content

  /** `a.order_index || 0`. */
  function Key(it: Item): int
  {
    match it.record.orderIndex
    case None => 0
    case Some(v) => v
  }

  ghost predicate SortedByKey(s: seq<Item>)
  {
    forall i, j :: 0 <= i < j < |s| ==> Key(s[i]) <= Key(s[j])
  }

  /** The items of key `k`, in order. */
  function WithKey(s: seq<Item>, k: int): seq<Item>
  {
    if s == [] then [] else (if Key(s[0]) == k then [s[0]] else []) + WithKey(s[1..], k)
  }

  /** The number of items with tag `t`. */
  function CountType(s: seq<Item>, t: DisplayType): nat
  {
    if s == [] then 0 else (if s[0].displayType == t then 1 else 0) + CountType(s[1..], t)
  }

  /** Places `x` before the first item whose key is not below its own. */
  function InsertByKey(x: Item, s: seq<Item>): (r: seq<Item>)
    ensures |r| == |s| + 1
    ensures multiset(r) == multiset(s) + multiset{x}
  {
    if s == [] || Key(x) <= Key(s[0]) then
      [x] + s
    else
      assert s == [s[0]] + s[1..];
      [s[0]] + InsertByKey(x, s[1..])
  }

  /** Inserting into a sorted list keeps it sorted. */
  lemma {:induction false} InsertSorted(x: Item, s: seq<Item>)
    requires SortedByKey(s)
    ensures SortedByKey(InsertByKey(x, s))
  {
    if s != [] && Key(x) > Key(s[0]) {
      var rest := InsertByKey(x, s[1..]);
      InsertSorted(x, s[1..]);
      forall j | 0 <= j < |rest|
        ensures Key(s[0]) <= Key(rest[j])
      {
        assert rest[j] in multiset(rest);
        assert rest[j] == x || rest[j] in s[1..];
      }
    }
  }

  /** Among the items of its own key, the inserted item comes first; the
      items of other keys are untouched. */
  lemma {:induction false} InsertWithKey(x: Item, s: seq<Item>, k: int)
    ensures WithKey(InsertByKey(x, s), k) == if Key(x) == k then [x] + WithKey(s, k) else WithKey(s, k)
  {
    if s == [] || Key(x) <= Key(s[0]) {
      assert ([x] + s)[1..] == s;
    } else {
      var r := InsertByKey(x, s);
      assert r[1..] == InsertByKey(x, s[1..]);
      InsertWithKey(x, s[1..], k);
    }
  }

  lemma {:induction false} InsertCountType(x: Item, s: seq<Item>, t: DisplayType)
    ensures CountType(InsertByKey(x, s), t) == CountType(s, t) + (if x.displayType == t then 1 else 0)
  {
    if s == [] || Key(x) <= Key(s[0]) {
      assert ([x] + s)[1..] == s;
    } else {
      var r := InsertByKey(x, s);
      assert r[1..] == InsertByKey(x, s[1..]);
      InsertCountType(x, s[1..], t);
    }
  }

  /** `sort((a, b) => (a.order_index || 0) - (b.order_index || 0))`, which is
      stable: insertion from the back. */
  function SortByOrder(s: seq<Item>): (r: seq<Item>)
    ensures |r| == |s|
    ensures multiset(r) == multiset(s)
  {
    if s == [] then []
    else
      assert s == [s[0]] + s[1..];
      InsertByKey(s[0], SortByOrder(s[1..]))
  }

  lemma {:induction false} SortSorted(s: seq<Item>)
    ensures SortedByKey(SortByOrder(s))
  {
    if s != [] {
      SortSorted(s[1..]);
      InsertSorted(s[0], SortByOrder(s[1..]));
    }
  }

  /** The sort is stable: the items of each key keep their order. */
  lemma {:induction false} SortStable(s: seq<Item>, k: int)
    ensures WithKey(SortByOrder(s), k) == WithKey(s, k)
  {
    if s != [] {
      SortStable(s[1..], k);
      InsertWithKey(s[0], SortByOrder(s[1..]), k);
    }
  }

  lemma {:induction false} SortCountType(s: seq<Item>, t: DisplayType)
    ensures CountType(SortByOrder(s), t) == CountType(s, t)
  {
    if s != [] {
      SortCountType(s[1..], t);
      InsertCountType(s[0], SortByOrder(s[1..]), t);
    }
  }

  function Tag(records: seq<Record>, t: DisplayType): (items: seq<Item>)
    ensures |items| == |records|
    ensures forall i :: 0 <= i < |records| ==> items[i] == Item(records[i], t)
  {
    seq(|records|, i requires 0 <= i < |records| => Item(records[i], t))
  }

  /** `combinedContent`: the lessons, then the exercises, each tagged, sorted
      by order index. */
  function CombinedContent(lessons: seq<Record>, exercises: seq<Record>): seq<Item>
  {
    SortByOrder(Tag(lessons, Lesson) + Tag(exercises, Exercise))
  }

  lemma {:induction false} WithKeyConcat(a: seq<Item>, b: seq<Item>, k: int)
    ensures WithKey(a + b, k) == WithKey(a, k) + WithKey(b, k)
  {
    if a != [] {
      assert (a + b)[1..] == a[1..] + b;
      WithKeyConcat(a[1..], b, k);
    } else {
      assert a + b == b;
    }
  }

  lemma {:induction false} CountTypeConcat(a: seq<Item>, b: seq<Item>, t: DisplayType)
    ensures CountType(a + b, t) == CountType(a, t) + CountType(b, t)
  {
    if a != [] {
      assert (a + b)[1..] == a[1..] + b;
      CountTypeConcat(a[1..], b, t);
    } else {
      assert a + b == b;
    }
  }

  lemma {:induction false} CountTypeOfTag(records: seq<Record>, t: DisplayType, u: DisplayType)
    ensures CountType(Tag(records, t), u) == if t == u then |records| else 0
  {
    if records != [] {
      assert Tag(records, t)[1..] == Tag(records[1..], t);
      CountTypeOfTag(records[1..], t, u);
    }
  }

  /** The combined list is ordered by key, holds exactly the tagged lessons
      and exercises, and among items of equal key keeps the lessons' order,
      then the exercises' order. */
  lemma CombinedContentOrdered(lessons: seq<Record>, exercises: seq<Record>)
    ensures var c := CombinedContent(lessons, exercises);
      && SortedByKey(c)
      && multiset(c) == multiset(Tag(lessons, Lesson)) + multiset(Tag(exercises, Exercise))
      && forall k :: WithKey(c, k) == WithKey(Tag(lessons, Lesson), k) + WithKey(Tag(exercises, Exercise), k)
  {
    SortSorted(Tag(lessons, Lesson) + Tag(exercises, Exercise));
    forall k
      ensures WithKey(CombinedContent(lessons, exercises), k)
              == WithKey(Tag(lessons, Lesson), k) + WithKey(Tag(exercises, Exercise), k)
    {
      SortStable(Tag(lessons, Lesson) + Tag(exercises, Exercise), k);
      WithKeyConcat(Tag(lessons, Lesson), Tag(exercises, Exercise), k);
    }
  }

  /** `nbLessons` and `nbExercises` count the lessons and the exercises given,
      and together they count the whole list. */
  lemma CombinedContentCounts(lessons: seq<Record>, exercises: seq<Record>)
    ensures var c := CombinedContent(lessons, exercises);
      && CountType(c, Lesson) == |lessons|
      && CountType(c, Exercise) == |exercises|
      && CountType(c, Lesson) + CountType(c, Exercise) == |c|
  {
    var l := Tag(lessons, Lesson);
    var e := Tag(exercises, Exercise);
    SortCountType(l + e, Lesson);
    SortCountType(l + e, Exercise);
    CountTypeConcat(l, e, Lesson);
    CountTypeConcat(l, e, Exercise);
    CountTypeOfTag(lessons, Lesson, Lesson);
    CountTypeOfTag(lessons, Lesson, Exercise);
    CountTypeOfTag(exercises, Exercise, Lesson);
    CountTypeOfTag(exercises, Exercise, Exercise);
  }

  /** Every item of the combined list carries the tag `lesson` or `exercise`. */
  lemma CombinedContentTagged(lessons: seq<Record>, exercises: seq<Record>, i: int)
    requires 0 <= i < |CombinedContent(lessons, exercises)|
    ensures CombinedContent(lessons, exercises)[i].displayType != Untagged
  {
    var c := CombinedContent(lessons, exercises);
    var l := Tag(lessons, Lesson);
    var e := Tag(exercises, Exercise);
    assert c[i] in multiset(c);
    assert c[i] in l + e;
  }

  // ---------------------------------------------------------------- position and progress

  /** The item is the one selected: same id and same tag. */
  predicate Matches(it: Item, selected: Option<Item>)
  {
    selected.Some? && it.record.id == selected.value.record.id && it.displayType == selected.value.displayType
  }

  /** `currentIndex`: the first position holding the selected item, or -1. */
  function CurrentIndex(content: seq<Item>, selected: Option<Item>): (i: int)
    ensures -1 <= i < |content|
    ensures i >= 0 ==> Matches(content[i], selected)
    ensures i >= 0 ==> forall j :: 0 <= j < i ==> !Matches(content[j], selected)
    ensures i == -1 <==> forall j :: 0 <= j < |content| ==> !Matches(content[j], selected)
  {
    if content == [] then -1
    else if Matches(content[0], selected) then 0
    else
      var r := CurrentIndex(content[1..], selected);
      assert forall j :: 1 <= j < |content| ==> content[j] == content[1..][j - 1];
      if r == -1 then -1 else r + 1
  }

  /** An item with no tag (the first lesson the course page selects) is never
      found in the combined list, so the page shows no position. */
  lemma UntaggedSelectionNotFound(lessons: seq<Record>, exercises: seq<Record>, sel: Item)
    requires sel.displayType == Untagged
    ensures CurrentIndex(CombinedContent(lessons, exercises), Some(sel)) == -1
  {
    var c := CombinedContent(lessons, exercises);
    forall j | 0 <= j < |c|
      ensures !Matches(c[j], Some(sel))
    {
      CombinedContentTagged(lessons, exercises, j);
    }
  }

  /** The header's progress: `Math.round((currentIndex + 1) / length * 100)`,
      0 for an empty list. */
  function ProgressShown(index: int, length: nat): int
  {
    if length > 0 then RoundDiv(100 * (index + 1), length) else 0
  }

  /** The progress lies between 0 and 100; it is 0 when nothing is found and
      100 on the last item. */
  lemma ProgressShownBounds(index: int, length: nat)
    requires -1 <= index < length
    ensures 0 <= ProgressShown(index, length) <= 100
    ensures index == -1 ==> ProgressShown(index, length) == 0
    ensures 0 <= index == length - 1 ==> ProgressShown(index, length) == 100
  {
    var n := length;
    if n == 0 {
      return;
    }
    RoundPercentInRange(index + 1, n);
    var r := ProgressShown(index, length);
    if index == -1 {
      assert n * (2 * r + 1) > 0;
      SignOfFactor(n, 2 * r + 1);
    }
    if index == length - 1 {
      assert n * (2 * r - 199) > 0;
      SignOfFactor(n, 2 * r - 199);
    }
  }

  /** `getNavLabel`: empty without an item, otherwise a label naming the kind
      of the item and the direction. */
  function NavLabel(item: Option<Item>, prev: bool): (text: string)
    ensures text == "" <==> item.None?
  {
    match item
    case None => ""
    case Some(it) =>
      match it.displayType
      case Lesson => if prev then "Leçon précédente" else "Leçon suivante"
      case Exercise => if prev then "Exercice précédent" else "Exercice suivant"
      case Untagged => if prev then "Précédent" else "Suivant"
  }

  /** The first test case of the selected item, when it is an exercise that
      has one: what the validate button checks against. */
  function TestCaseOf(selected: Option<Item>): Option<TestCase>
  {
    if selected.Some? && selected.value.displayType == Exercise then selected.value.record.testCase
    else None
  }

  // ---------------------------------------------------------------- page state

  class CourseDetailPage {
    const content: seq<Item>
    /** The parent's `selectedLesson`, which `onLessonSelect` sets. */
    var selected: Option<Item>
    var completed: set<string>
    /** The completion set last written to the cookie. */
    var saved: Option<set<string>>
    var selectedAnswer: Option<int>
    var isAnswered: bool
    var isCorrect: bool
    var showFeedback: bool

    /** The cookie holds the completion set once it was written; a correct
        answer is an answered one, and an answered one has a choice and shows
        its feedback. */
    ghost predicate Valid()
      reads this
    {
      && (saved.Some? ==> saved.value == completed)
      && (isCorrect ==> isAnswered)
      && (isAnswered ==> selectedAnswer.Some? && showFeedback)
    }

    /** Mounting the page; `loaded` is the id list decoded from the progress
        cookie, `None` when there is no cookie or it does not decode. */
    constructor (lessons: seq<Record>, exercises: seq<Record>, initial: Option<Item>, loaded: Option<seq<string>>)
      ensures Valid()
      ensures content == CombinedContent(lessons, exercises) && selected == initial
      ensures completed == (if loaded.Some? then set x | x in loaded.value else {})
      ensures saved == None && selectedAnswer == None
      ensures !isAnswered && !isCorrect && !showFeedback
    {
      content := CombinedContent(lessons, exercises);
      selected := initial;
      completed := if loaded.Some? then set x | x in loaded.value else {};
      saved := None;
      selectedAnswer := None;
      isAnswered := false;
      isCorrect := false;
      showFeedback := false;
    }

    /** `markAsCompleted`: adds the id and writes the new set to the cookie. */
    method MarkAsCompleted(id: string)
      requires Valid()
      modifies this`completed, this`saved
      ensures Valid()
      ensures completed == old(completed) + {id}
      ensures saved == Some(completed)
    {
      completed := completed + {id};
      saved := Some(completed);
    }

    /** `handleLessonSelect`, the sidebar's click: selects the item and, when
        it is a lesson with an id not yet completed, marks it completed. */
    method LessonSelect(item: Item)
      requires Valid()
      modifies this`selected, this`completed, this`saved
      ensures Valid()
      ensures selected == Some(item)
      ensures item.displayType == Lesson && item.record.id != "" ==> completed == old(completed) + {item.record.id}
      ensures !(item.displayType == Lesson && item.record.id != "") ==> completed == old(completed)
      ensures item.displayType == Lesson && item.record.id != "" && item.record.id !in old(completed) ==> saved == Some(completed)
      ensures old(completed) == completed ==> saved == old(saved)
    {
      selected := Some(item);
      if item.displayType == Lesson && item.record.id != "" && item.record.id !in completed {
        MarkAsCompleted(item.record.id);
      }
    }

    /** A radio button: disabled once the exercise was answered. */
    method ChooseAnswer(index: int)
      requires Valid()
      modifies this`selectedAnswer
      ensures Valid()
      ensures selectedAnswer == if isAnswered then old(selectedAnswer) else Some(index)
    {
      if !isAnswered {
        selectedAnswer := Some(index);
      }
    }

    /** `handleValidateAnswer`: without a choice it only alerts; on an exercise
        with a first test case it records whether the choice is the expected
        option and, when it is, marks the exercise completed; otherwise it
        does nothing. */
    method ValidateAnswer() returns (alerted: bool)
      requires Valid()
      modifies this`isCorrect, this`isAnswered, this`showFeedback, this`completed, this`saved
      ensures Valid()
      ensures alerted <==> selectedAnswer.None?
      ensures alerted || TestCaseOf(selected).None? ==>
        isCorrect == old(isCorrect) && isAnswered == old(isAnswered) && showFeedback == old(showFeedback)
        && completed == old(completed) && saved == old(saved)
      ensures !alerted && TestCaseOf(selected).Some? ==>
        && isAnswered && showFeedback
        && (isCorrect <==> TestCaseOf(selected).value.correctOptionIndex == selectedAnswer)
        && completed == old(completed) + (if isCorrect && selected.value.record.id != "" then {selected.value.record.id} else {})
      ensures !alerted && TestCaseOf(selected).Some? && isCorrect && selected.value.record.id != "" ==> saved == Some(completed)
      ensures !(!alerted && TestCaseOf(selected).Some? && isCorrect && selected.value.record.id != "") ==> saved == old(saved)
    {
      if selectedAnswer.None? {
        return true;
      }
      alerted := false;
      var tc := TestCaseOf(selected);
      if tc.Some? {
        var correct := tc.value.correctOptionIndex == selectedAnswer;
        isCorrect := correct;
        isAnswered := true;
        showFeedback := true;
        if correct && selected.value.record.id != "" {
          MarkAsCompleted(selected.value.record.id);
        }
      }
    }

    /** `handleResetExercise`. */
    method ResetExercise()
      modifies this`selectedAnswer, this`isAnswered, this`isCorrect, this`showFeedback
      ensures Valid() == (saved.Some? ==> saved.value == completed)
      ensures selectedAnswer == None && !isAnswered && !isCorrect && !showFeedback
    {
      selectedAnswer := None;
      isAnswered := false;
      isCorrect := false;
      showFeedback := false;
    }

    /** The "previous" navigation button, shown past the first position. It
        selects the previous item without marking anything completed. */
    method PreviousItem() returns (shown: bool)
      requires Valid()
      modifies this`selected
      ensures Valid()
      ensures var i := CurrentIndex(content, old(selected));
        && (shown <==> i > 0)
        && (shown ==> selected == Some(content[i - 1]))
        && (!shown ==> selected == old(selected))
    {
      var i := CurrentIndex(content, selected);
      shown := i > 0;
      if shown {
        selected := Some(content[i - 1]);
      }
    }

    /** The "next" navigation button. The navigation row belongs to the
        card of the selected item, so the button exists only while an item
        is selected, and then only before the last position; from a
        selection that is not in the list (position -1) it leads to the
        first item. */
    method NextItem() returns (shown: bool)
      requires Valid()
      modifies this`selected
      ensures Valid()
      ensures var i := CurrentIndex(content, old(selected));
        && (shown <==> old(selected).Some? && i < |content| - 1)
        && (shown ==> selected == Some(content[i + 1]))
        && (!shown ==> selected == old(selected))
    {
      var i := CurrentIndex(content, selected);
      shown := selected.Some? && i < |content| - 1;
      if shown {
        selected := Some(content[i + 1]);
      }
    }

    /** The sidebar's completion mark. */
    function IsCompleted(it: Item): bool
      reads this
    {
      it.record.id in completed
    }

    /** The header's progress for the current selection. */
    function Progress(): (p: int)
      reads this
      ensures 0 <= p <= 100
    {
      var i := CurrentIndex(content, selected);
      ProgressShownBounds(i, |content|);
      ProgressShown(i, |content|)
    }
  }
}
