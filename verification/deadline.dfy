/**
 * The detail modal's countdown: whole days until the deadline, rounded up,
 * and the line that announces them.
 */
module Deadline {
  import opened Wrappers
  import opened Strings

  /** `1000 * 60 * 60 * 24`. */
  const MsPerDay: int := 86_400_000

  /**
   * `Math.ceil((deadline - now) / MsPerDay)`, computed exactly on integers:
   * Dafny's division by a positive divisor rounds down, so the ceiling is
   * the negated floor of the negated quotient.
   */
  function DaysUntilDeadline(deadline: int, now: int): (d: int)
    ensures MsPerDay * (d - 1) < deadline - now <= MsPerDay * d
    ensures d > 0 <==> deadline > now
  {
    -((now - deadline) / MsPerDay)
  }

  /** The ceiling is the only integer within one day above the remaining time. */
  lemma DaysUnique(deadline: int, now: int, k: int)
    requires MsPerDay * (k - 1) < deadline - now <= MsPerDay * k
    ensures k == DaysUntilDeadline(deadline, now)
  {
  }

  /** Any positive remaining time up to one full day counts as one day. */
  lemma WithinADayShowsOne(deadline: int, now: int)
    requires now < deadline <= now + MsPerDay
    ensures DaysUntilDeadline(deadline, now) == 1
  {
    DaysUnique(deadline, now, 1);
  }

  /** A later deadline never shows fewer days. */
  lemma DaysMonotone(deadline1: int, deadline2: int, now: int)
    requires deadline1 <= deadline2
    ensures DaysUntilDeadline(deadline1, now) <= DaysUntilDeadline(deadline2, now)
  {
  }

  const Passed: string := "Deadline passed"

  /** The countdown line: "N day remaining", "N days remaining" or "Deadline passed". */
  function CountdownLabel(d: int): string {
    if d > 0 then NatToString(d) + DaySuffix(d) else Passed
  }

  function DaySuffix(d: int): string {
    " day" + (if d != 1 then "s" else "") + " remaining"
  }

  /**
   * A positive count is written out in decimal at the head of the line,
   * followed by the singular only for one day; any other count reads
   * "Deadline passed".
   */
  lemma CountdownLabelMeaning(d: int)
    ensures d <= 0 ==> CountdownLabel(d) == Passed
    ensures d > 0 ==>
      var digits := NatToString(d);
      var r := CountdownLabel(d);
      |r| > |digits| && DigitsValue(r[..|digits|]) == d &&
      r[|digits|..] == (if d == 1 then " day remaining" else " days remaining")
  {
    if d > 0 {
      NatToStringRoundTrip(d);
      var digits := NatToString(d);
      var r := CountdownLabel(d);
      assert r == digits + DaySuffix(d);
      assert r[..|digits|] == digits;
      assert r[|digits|..] == DaySuffix(d);
    }
  }

  /** The line the modal shows for a deadline, given the current time. */
  function ModalLine(deadline: int, now: int): string {
    CountdownLabel(DaysUntilDeadline(deadline, now))
  }

  /** The modal reports "Deadline passed" exactly when the deadline is not in the future. */
  lemma ModalLinePassed(deadline: int, now: int)
    ensures ModalLine(deadline, now) == Passed <==> deadline <= now
  {
    var d := DaysUntilDeadline(deadline, now);
    if d > 0 {
      var digits := NatToString(d);
      var r := CountdownLabel(d);
      assert r[0] == digits[0];
      assert IsDigit(r[0]);
      assert Passed[0] == 'D';
    }
  }

  /**
   * The `deadline` value the detail modal receives. The page hands it the
   * stored document unchanged, so it holds the stored number or nothing; only
   * a `Date`, which the client type declares, has `getTime`.
   */
  datatype DeadlineValue = DateObject(time: int) | Number(ms: int) | Undefined

  /** What a stored document supplies: its timestamp as a number, or `undefined`. */
  function StoredDeadline(deadline: Option<int>): DeadlineValue {
    match deadline
    case Some(ms) => Number(ms)
    case None => Undefined
  }

  /**
   * As written: `opportunity.deadline.getTime()` throws a `TypeError` on
   * anything but a `Date`, and the modal does not render (`None`).
   */
  function ModalLineAsWritten(v: DeadlineValue, now: int): (r: Option<string>)
    ensures r.Some? <==> v.DateObject?
    ensures r.Some? ==> (r.value == Passed <==> v.time <= now)
  {
    match v
    case DateObject(t) => ModalLinePassed(t, now); Some(ModalLine(t, now))
    case _ => None
  }

  /** As written, no stored opportunity can be shown: its deadline is never a `Date`. */
  lemma StoredDeadlineBreaksModal(deadline: Option<int>, now: int)
    ensures ModalLineAsWritten(StoredDeadline(deadline), now) == None
  {
  }

  /** The evidently intended modal: it reads a stored number as the timestamp it is. */
  function ModalLineCorrected(v: DeadlineValue, now: int): (r: Option<string>)
    ensures r.None? <==> v.Undefined?
  {
    match v
    case DateObject(t) => Some(ModalLine(t, now))
    case Number(ms) => Some(ModalLine(ms, now))
    case Undefined => None
  }

  /**
   * The corrected modal shows every stored deadline, and says "Deadline
   * passed" exactly when it is not in the future.
   */
  lemma CorrectedShowsStoredDeadline(ms: int, now: int)
    ensures ModalLineCorrected(StoredDeadline(Some(ms)), now).Some?
    ensures ModalLineCorrected(StoredDeadline(Some(ms)), now).value == Passed <==> ms <= now
  {
    ModalLinePassed(ms, now);
  }
}
