/**
 * How far a milestone is through its schedule. Dates are whole day numbers
 * and "today" is passed in; absent dates and dates on the wrong side of today
 * give 0 days, never an error.
 */
module Schedule {
  import opened WorkItems

  /** A due date before today: the milestone has expired. */
  predicate Expired(dueDate: Option<int>, today: int)
  {
    dueDate.Some? && dueDate.value < today
  }

  /** `remaining_days`: days from today until the due date. */
  function RemainingDays(dueDate: Option<int>, today: int): (days: nat)
    ensures dueDate.None? || Expired(dueDate, today) ==> days == 0
    ensures dueDate.Some? && !Expired(dueDate, today) ==> today + days == dueDate.value
  {
    if dueDate.None? || Expired(dueDate, today) then 0 else dueDate.value - today
  }

  /** `elapsed_days`: days from the start date until today. */
  function ElapsedDays(startDate: Option<int>, today: int): (days: nat)
    ensures startDate.None? || startDate.value > today ==> days == 0
    ensures startDate.Some? && startDate.value <= today ==> startDate.value + days == today
  {
    if startDate.None? || startDate.value > today then 0 else today - startDate.value
  }

  /** Between start and due date, the days elapsed and the days remaining add up to the whole span. */
  lemma ElapsedPlusRemaining(startDate: int, dueDate: int, today: int)
    requires startDate <= today <= dueDate
    ensures ElapsedDays(Some(startDate), today) + RemainingDays(Some(dueDate), today) == dueDate - startDate
  {
  }

  /** Each day that passes takes one day off the remaining days, which then stay at 0. */
  lemma RemainingCountsDown(dueDate: Option<int>, today: int)
    ensures RemainingDays(dueDate, today + 1) ==
            if RemainingDays(dueDate, today) > 0 then RemainingDays(dueDate, today) - 1 else 0
  {
  }

  /** Once the start date is reached, each day that passes adds one elapsed day. */
  lemma ElapsedCountsUp(startDate: Option<int>, today: int)
    requires startDate.Some? && startDate.value <= today
    ensures ElapsedDays(startDate, today + 1) == ElapsedDays(startDate, today) + 1
  {
  }
}
