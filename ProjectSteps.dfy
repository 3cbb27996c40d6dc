/** The steps of a project: a checklist whose items the student ticks in
    a map of overrides keyed `"<step>-<item>"`, a single expanded step, the
    count of completed steps and the action button of each step. */
module ProjectSteps {
  import opened Util

  datatype StepStatus = Completed | InProgress | NotStarted

  datatype ChecklistItem = ChecklistItem(id: nat, text: string, completed: bool)

  datatype Step = Step(id: nat, title: string, status: StepStatus, checklist: seq<ChecklistItem>)

  /** `projectSteps[projectId] || []`: an unknown project has no steps. */
  function StepsOf(catalogue: map<string, seq<Step>>, projectId: string): (steps: seq<Step>)
    ensures projectId !in catalogue ==> steps == []
    ensures projectId in catalogue ==> steps == catalogue[projectId]
  {
    if projectId in catalogue then catalogue[projectId] else []
  }

  // ---------------------------------------------------------------- checklist keys

  /** The key `${stepId}-${itemId}`. */
  function ChecklistKey(stepId: nat, itemId: nat): string
  {
    NatToString(stepId) + "-" + NatToString(itemId)
  }

  /** Distinct step and item pairs have distinct keys, so a toggle touches
      only the item it was made for. */
  lemma ChecklistKeyInjective(s1: nat, i1: nat, s2: nat, i2: nat)
    requires ChecklistKey(s1, i1) == ChecklistKey(s2, i2)
    ensures s1 == s2 && i1 == i2
  {
    var a, b := NatToString(s1), NatToString(i1);
    var c, d := NatToString(s2), NatToString(i2);
    var x := ChecklistKey(s1, i1);
    assert x == a + "-" + b == c + "-" + d;
    assert x[|a|] == '-' && x[|c|] == '-';
    assert forall k :: 0 <= k < |c| ==> x[k] == c[k] && IsDigit(x[k]);
    assert forall k :: 0 <= k < |a| ==> x[k] == a[k] && IsDigit(x[k]);
    assert |a| == |c|;
    assert a == x[..|a|] == c;
    assert b == x[|a| + 1..] == d;
    NatToStringInjective(s1, s2);
    NatToStringInjective(i1, i2);
  }

  /** The override stored under a key; an absent key reads as `undefined`,
      which is falsy. */
  function Override(m: map<string, bool>, key: string): bool
  {
    key in m && m[key]
  }

  /** `{...prev, [key]: !prev[key]}`: the override under `key` is negated
      (an absent key becomes `true`) and every other entry is kept. */
  function ToggleKey(m: map<string, bool>, key: string): (r: map<string, bool>)
    ensures key in r && r[key] == !Override(m, key)
    ensures key !in m ==> r[key]
    ensures forall k :: k != key ==> (k in r <==> k in m)
    ensures forall k :: k != key && k in m ==> r[k] == m[k]
  {
    m[key := !Override(m, key)]
  }

  /** Toggling the same item twice gives back every override as it was read. */
  lemma ToggleKeyTwice(m: map<string, bool>, key: string, k: string)
    ensures Override(ToggleKey(ToggleKey(m, key), key), k) == Override(m, k)
  {
    var once := ToggleKey(m, key);
    if k != key {
      assert Override(once, k) == Override(m, k);
    }
  }

  /** The checkbox of an item: the override or the item's own `completed`
      flag. An item completed in the data stays checked whatever the
      overrides; any other item shows its override. */
  function IsChecked(m: map<string, bool>, stepId: nat, item: ChecklistItem): (checked: bool)
    ensures item.completed ==> checked
    ensures !item.completed ==> (checked <==> Override(m, ChecklistKey(stepId, item.id)))
  {
    Override(m, ChecklistKey(stepId, item.id)) || item.completed
  }

  /** Ticking an item changes the checkbox of no item of another step, nor
      of another item of the same step. */
  lemma ToggleTouchesOneItem(m: map<string, bool>, stepId: nat, itemId: nat, s: nat, item: ChecklistItem)
    requires s != stepId || item.id != itemId
    ensures IsChecked(ToggleKey(m, ChecklistKey(stepId, itemId)), s, item) == IsChecked(m, s, item)
  {
    if ChecklistKey(s, item.id) == ChecklistKey(stepId, itemId) {
      ChecklistKeyInjective(s, item.id, stepId, itemId);
      assert false;
    }
  }

  // ---------------------------------------------------------------- progress

  function IsCompleted(s: Step): bool
  {
    s.status == Completed
  }

  /** "Étapes terminées": the number of completed steps. */
  function CompletedCount(steps: seq<Step>): (n: nat)
    ensures n <= |steps|
  {
    |Filter(steps, IsCompleted)|
  }

  /** The count reaches the number of steps exactly when every step is
      completed. */
  lemma AllCompletedIffFull(steps: seq<Step>)
    ensures CompletedCount(steps) == |steps| <==> forall i :: 0 <= i < |steps| ==> steps[i].status == Completed
  {
    var r := Filter(steps, IsCompleted);
    if |r| == |steps| {
      SubseqOfSameLength(r, steps, IsCompleted);
    }
  }

  /** The width of the progress bar in percent; `None` for a project
      without steps, where the division gives no number. The bar is full
      exactly when every step is completed, and empty exactly when none
      is; otherwise it is the completed share of the steps, whose scale
      `ShareScales` states. */
  function ProgressWidth(steps: seq<Step>): (w: Option<real>)
    ensures w.None? <==> steps == []
    ensures w.Some? ==> 0.0 <= w.value <= 100.0
    ensures w.Some? ==> (w.value == 100.0 <==> forall i :: 0 <= i < |steps| ==> steps[i].status == Completed)
    ensures w.Some? ==> (w.value == 0.0 <==> CompletedCount(steps) == 0)
    ensures w.Some? ==> w.value == Share(CompletedCount(steps), |steps|)
  {
    if steps == [] then None
    else
      AllCompletedIffFull(steps);
      Some(Share(CompletedCount(steps), |steps|))
  }

  /** The share times the whole is 100 times the part. */
  lemma ShareScales(k: nat, n: nat)
    requires 0 < n && k <= n
    ensures Share(k, n) * n as real == 100.0 * k as real
  {
    var q := k as real / n as real;
    assert q * n as real == k as real;
    assert Share(k, n) == q * 100.0;
    calc {
      Share(k, n) * n as real;
      (q * 100.0) * n as real;
      100.0 * (q * n as real);
      100.0 * k as real;
    }
  }

  /** `k / n * 100`: a percentage that is 100 only for the whole and 0 only
      for nothing. */
  function Share(k: nat, n: nat): (w: real)
    requires 0 < n && k <= n
    ensures 0.0 <= w <= 100.0
    ensures w == 100.0 <==> k == n
    ensures w == 0.0 <==> k == 0
  {
    var q := k as real / n as real;
    assert q * n as real == k as real;
    assert q <= n as real / n as real == 1.0;
    q * 100.0
  }

  // ---------------------------------------------------------------- labels and button

  /** `statusLabels`. */
  function StatusLabel(st: StepStatus): (text: string)
    ensures text == "Terminé" <==> st == Completed
    ensures text == "En cours" <==> st == InProgress
    ensures text == "À faire" <==> st == NotStarted
  {
    match st
    case Completed => "Terminé"
    case InProgress => "En cours"
    case NotStarted => "À faire"
  }

  /** The action button of an expanded step: its label and whether it has
      the filled ("default") look rather than the outline. */
  datatype ActionButton = ActionButton(text: string, filled: bool)

  /** Completed steps have no button; a step in progress offers to finish
      it, with the filled look; a step not started offers to begin it. */
  function ActionFor(st: StepStatus): (b: Option<ActionButton>)
    ensures b.None? <==> st == Completed
    ensures b.Some? ==> (b.value.filled <==> st == InProgress)
    ensures b.Some? ==> (b.value.text == "Marquer comme terminé" <==> st == InProgress)
    ensures b.Some? ==> (b.value.text == "Commencer cette étape" <==> st == NotStarted)
  {
    match st
    case Completed => None
    case InProgress => Some(ActionButton("Marquer comme terminé", true))
    case NotStarted => Some(ActionButton("Commencer cette étape", false))
  }

  // ---------------------------------------------------------------- the view

  class StepsView {
    const steps: seq<Step>
    var checklist: map<string, bool>
    var expanded: Option<nat>

    /** The view of a project's steps: nothing ticked, nothing expanded. */
    constructor (catalogue: map<string, seq<Step>>, projectId: string)
      ensures steps == StepsOf(catalogue, projectId)
      ensures checklist == map[] && expanded == None
    {
      steps := StepsOf(catalogue, projectId);
      checklist := map[];
      expanded := None;
    }

    /** `toggleChecklistItem`. */
    method ToggleChecklistItem(stepId: nat, itemId: nat)
      modifies this`checklist
      ensures checklist == ToggleKey(old(checklist), ChecklistKey(stepId, itemId))
    {
      var key := ChecklistKey(stepId, itemId);
      checklist := checklist[key := !(key in checklist && checklist[key])];
    }

    function IsExpanded(stepId: nat): bool
      reads this
    {
      expanded == Some(stepId)
    }

    /** Opening a step: it becomes the only expanded one, replacing any
        other; clicking the open step collapses it. */
    method ToggleExpand(stepId: nat)
      modifies this`expanded
      ensures old(IsExpanded(stepId)) ==> expanded == None
      ensures !old(IsExpanded(stepId)) ==> expanded == Some(stepId)
      ensures forall s :: s != stepId ==> !IsExpanded(s)
    {
      expanded := if expanded == Some(stepId) then None else Some(stepId);
    }

    function Checked(stepId: nat, item: ChecklistItem): bool
      reads this
    {
      IsChecked(checklist, stepId, item)
    }
  }
}
