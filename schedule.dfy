/** Time-based rules: the registration window gate and the status a workshop shows.
    Instants are integer milliseconds since the epoch. */
module Schedule {

  import opened Wrappers

  const HourMs: int := 1000 * 60 * 60
  const DayMs: int := 24 * HourMs

  /** The interval during which new registrations are accepted. */
  datatype Window = Window(openTime: int, closeTime: int)

  /** 2025-12-01T08:00:00+07:00 to 2025-12-31T23:59:59+07:00. */
  const RegistrationWindow: Window := Window(1_764_550_800_000, 1_767_200_399_000)

  /** The fixed window opens at 2025-12-01T01:00:00Z (08:00 at UTC+7) and stays open for
      30 days, 15 hours, 59 minutes and 59 seconds, up to 2025-12-31T16:59:59Z. */
  lemma RegistrationWindowSpan()
    ensures RegistrationWindow.openTime == 20_423 * DayMs + HourMs
    ensures RegistrationWindow.closeTime - RegistrationWindow.openTime
            == 30 * DayMs + 15 * HourMs + 59 * 60_000 + 59_000
    ensures IsRegistrationOpen(RegistrationWindow.openTime, RegistrationWindow.openTime, RegistrationWindow.closeTime)
  {
  }

  /** `isRegistrationOpen(now, openTime, closeTime)`: registration is open from the opening
      instant to the closing instant, both included. */
  function IsRegistrationOpen(now: int, openTime: int, closeTime: int): (open: bool)
    ensures open <==> openTime <= now <= closeTime
  {
    now >= openTime && now <= closeTime
  }

  /** The gate is the closed interval [openTime, closeTime]: both end points are inside, the
      instant before the opening and the instant after the closing are outside, and whatever
      lies between two open instants is open. */
  lemma RegistrationOpenIsClosedInterval(openTime: int, closeTime: int, now: int)
    ensures openTime <= closeTime ==>
              IsRegistrationOpen(openTime, openTime, closeTime)
              && IsRegistrationOpen(closeTime, openTime, closeTime)
    ensures !IsRegistrationOpen(openTime - 1, openTime, closeTime)
    ensures !IsRegistrationOpen(closeTime + 1, openTime, closeTime)
    ensures forall a, b ::
              (a <= now <= b && IsRegistrationOpen(a, openTime, closeTime) && IsRegistrationOpen(b, openTime, closeTime))
              ==> IsRegistrationOpen(now, openTime, closeTime)
  {
  }

  /** The status label a workshop carries in the list. */
  datatype Status = Upcoming | StartingSoon | InProgress | Ended

  /** The label chosen by the `if` chain of the workshop list: checked in the order ENDED,
      IN PROGRESS, STARTING SOON; UPCOMING is the default. The source divides the distance to
      the start by an hour in floating point and tests `0 < hours <= 24`; on whole
      milliseconds that is `0 < start - now <= DayMs`. Each label is characterised below
      without reference to the order of the tests. */
  function WorkshopStatus(start: Option<int>, end: Option<int>, now: int): (st: Status)
    ensures st == Ended <==> start.Some? && end.Some? && now > end.value
    ensures st == InProgress <==> start.Some? && end.Some? && start.value <= now <= end.value
    ensures st == StartingSoon <==>
              start.Some? && end.Some? && now <= end.value && 0 < start.value - now <= DayMs
    ensures st == Upcoming <==>
              start.None? || end.None? || (now <= end.value && start.value - now > DayMs)
  {
    if start.None? || end.None? then Upcoming
    else if now > end.value then Ended
    else if now >= start.value && now <= end.value then InProgress
    else if start.value - now <= DayMs && start.value - now > 0 then StartingSoon
    else Upcoming
  }

  /** Position of a status along a workshop's life. */
  function Stage(st: Status): nat {
    match st
    case Upcoming => 0
    case StartingSoon => 1
    case InProgress => 2
    case Ended => 3
  }

  /** For a scheduled workshop the label only moves forward as time passes: UPCOMING,
      STARTING SOON, IN PROGRESS, ENDED (some of them skipped when the schedule is odd, for
      instance when the end comes before the start). */
  lemma StatusAdvancesWithTime(start: int, end: int, t1: int, t2: int)
    requires t1 <= t2
    ensures Stage(WorkshopStatus(Some(start), Some(end), t1))
            <= Stage(WorkshopStatus(Some(start), Some(end), t2))
  {
  }

  /** Examples: starting one hour from now and ending three hours from now is STARTING SOON;
      started an hour ago and ending in an hour is IN PROGRESS; ended an hour ago is ENDED; a
      workshop without a schedule is UPCOMING; one starting a millisecond more than a day from
      now is UPCOMING. */
  lemma StatusExamples(now: int)
    ensures WorkshopStatus(Some(now + HourMs), Some(now + 3 * HourMs), now) == StartingSoon
    ensures WorkshopStatus(Some(now - HourMs), Some(now + HourMs), now) == InProgress
    ensures WorkshopStatus(Some(now - 3 * HourMs), Some(now - HourMs), now) == Ended
    ensures WorkshopStatus(None, Some(now + HourMs), now) == Upcoming
    ensures WorkshopStatus(Some(now + DayMs + 1), Some(now + 2 * DayMs), now) == Upcoming
  {
  }
}
