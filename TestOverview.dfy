/** The test overview page: whether the test window is open, whether
    attempts are left, and the label telling how long until it opens. Times
    are integer milliseconds. */
module TestOverview {
  import opened Util

  /** `isTestAvailable`: inside the window, both ends included. */
  predicate IsTestAvailable(now: int, start: int, end: int)
  {
    start <= now && now <= end
  }

  datatype StartLabel = InDays(days: int) | InHours(hours: int) | AvailableNow

  /** `getTimeUntilStart`: days while more than one (rounded up) remain,
      then hours while more than one remain, then "now". */
  function TimeUntilStart(now: int, start: int): (l: StartLabel)
    ensures l.InDays? <==> start - now > DayMs
    ensures l.InHours? <==> HourMs < start - now <= DayMs
    ensures l.AvailableNow? <==> start - now <= HourMs
    ensures l.InDays? ==> l.days > 1 && (l.days - 1) * DayMs < start - now <= l.days * DayMs
    ensures l.InHours? ==> 1 < l.hours <= 24 && (l.hours - 1) * HourMs < start - now <= l.hours * HourMs
  {
    var diff := start - now;
    var diffHours := CeilDiv(diff, HourMs);
    var diffDays := CeilDiv(diff, DayMs);
    CeilDivAboveOne(diff, DayMs);
    CeilDivAboveOne(diff, HourMs);
    if diffDays > 1 then InDays(diffDays)
    else if diffHours > 1 then
      assert (diffHours - 1) * HourMs < DayMs == 24 * HourMs;
      assert diffHours - 1 < 24;
      InHours(diffHours)
    else AvailableNow
  }

  /** The label's text. */
  function StartLabelText(l: StartLabel): string
    requires l.InDays? ==> l.days >= 0
    requires l.InHours? ==> l.hours >= 0
  {
    match l
    case InDays(d) => "Disponible dans " + NatToString(d) + " jours"
    case InHours(h) => "Disponible dans " + NatToString(h) + " heures"
    case AvailableNow => "Disponible maintenant"
  }

  /** The label reads "now" for a test that opens within the hour, and for
      one whose window has already closed, though neither can be taken. */
  lemma AvailableNowWhileUnavailable(now: int, start: int, end: int)
    requires now < start <= now + HourMs || start <= end < now
    ensures !IsTestAvailable(now, start, end)
    ensures TimeUntilStart(now, start) == AvailableNow
  {
  }

  /** `hasAttemptsLeft`. */
  predicate HasAttemptsLeft(used: nat, allowed: int)
  {
    used < allowed
  }

  /** `canTakeTest`: the start link instead of the disabled button. */
  function CanTakeTest(now: int, start: int, end: int, used: nat, allowed: int): (can: bool)
    ensures can ==> start <= now <= end && allowed - used >= 1
    ensures !can ==> now < start || now > end || used >= allowed
  {
    IsTestAvailable(now, start, end) && HasAttemptsLeft(used, allowed)
  }

  /** The number of attempts shown as remaining. */
  function AttemptsRemaining(used: nat, allowed: int): int
  {
    allowed - used
  }

  /** Attempts are left exactly when a positive number is shown remaining. */
  lemma RemainingPositiveIffLeft(used: nat, allowed: int)
    ensures AttemptsRemaining(used, allowed) > 0 <==> HasAttemptsLeft(used, allowed)
  {
  }

  /** The attempts bar: `used / allowed * 100` percent; `None` when no
      attempt is allowed (the division gives no number). */
  function AttemptsBarWidth(used: nat, allowed: int): (w: Option<real>)
    ensures w.None? <==> allowed == 0
    ensures allowed > 0 ==> w.value * allowed as real == 100.0 * used as real
  {
    if allowed == 0 then None else Some(used as real / allowed as real * 100.0)
  }

  /** While attempts are left the bar is less than full. */
  lemma BarBelowFullWhileAttemptsLeft(used: nat, allowed: int)
    requires allowed > 0 && HasAttemptsLeft(used, allowed)
    ensures 0.0 <= AttemptsBarWidth(used, allowed).value < 100.0
  {
    var w := AttemptsBarWidth(used, allowed).value;
    assert w * allowed as real == 100.0 * used as real;
    assert 100.0 * used as real < 100.0 * allowed as real;
  }

  /** The test of a given id, when the catalogue has it; `None` is the
      "Test non trouvé" view. */
  function FindTest<T>(catalogue: map<string, T>, id: string): (found: Option<T>)
    ensures found.Some? <==> id in catalogue
    ensures found.Some? ==> found.value == catalogue[id]
  {
    if id in catalogue then Some(catalogue[id]) else None
  }
}
