/** Entitlement arithmetic of the content script: premium access (paid, or
    a trial younger than seven days), the days left in the trial, and the
    once-a-day "trial ending soon" reminder. All of it is a pure function
    of the licence, the current instant `now` and, for the reminder, the
    day key of `now`. */
module Entitlement {
  import opened Prelude

  /** What a page context has cached about the user's licence. */
  datatype Licence = Licence(paid: bool, trialStartedAt: Option<int>)

  /** Milliseconds since the trial started, when it has. */
  function Elapsed(l: Licence, now: int): int
    requires l.trialStartedAt.Some?
  {
    now - l.trialStartedAt.value
  }

  /** `hasPremiumAccess`: a paid user always has it; otherwise only a
      trial that started strictly less than seven days ago grants it. */
  function HasPremiumAccess(l: Licence, now: int): (r: bool)
    ensures l.paid ==> r
    ensures !l.paid && l.trialStartedAt.None? ==> !r
    ensures !l.paid && l.trialStartedAt.Some? ==> (r <==> now - l.trialStartedAt.value < 604800000)
  {
    if l.paid then true
    else if l.trialStartedAt.Some? then now - l.trialStartedAt.value < TrialMs
    else false
  }

  /** The trial boundary sits at exactly seven days: one second before it
      the user still has access, at it and one second after it they do not. */
  lemma TrialBoundary(start: int)
    ensures HasPremiumAccess(Licence(false, Some(start)), start + 6 * DayMs + 23 * 3600000 + 59 * 60000 + 59000)
    ensures !HasPremiumAccess(Licence(false, Some(start)), start + TrialMs)
    ensures !HasPremiumAccess(Licence(false, Some(start)), start + 7 * DayMs + 1000)
  {
  }

  /** Once an unpaid trial has run out it stays run out: access never
      comes back as time moves forward. */
  lemma ExpiryIsPermanent(l: Licence, now: int, later: int)
    requires !l.paid && now <= later
    requires !HasPremiumAccess(l, now)
    ensures !HasPremiumAccess(l, later)
  {
  }

  /** `Math.ceil(ms / DayMs)` on the integers: the least whole number of
      days that covers `ms`. */
  function CeilDays(ms: int): (d: int)
    ensures (d - 1) * DayMs < ms <= d * DayMs
  {
    (ms + DayMs - 1) / DayMs
  }

  /** `getDaysRemainingInTrial`: the whole days left before the trial
      ends, rounded up and never below zero; zero when no trial started.
      The paid flag is not consulted. */
  function DaysRemaining(l: Licence, now: int): (r: int)
    ensures r >= 0
    ensures l.trialStartedAt.None? ==> r == 0
    ensures l.trialStartedAt.Some? && Elapsed(l, now) < TrialMs ==>
              (r - 1) * DayMs < TrialMs - Elapsed(l, now) <= r * DayMs
    ensures l.trialStartedAt.Some? && Elapsed(l, now) >= TrialMs ==> r == 0
  {
    if l.trialStartedAt.None? then 0
    else
      var remaining := TrialMs - Elapsed(l, now);
      var days := CeilDays(remaining);
      if days < 0 then 0 else days
  }

  /** With a trial, no days remain exactly when seven days have elapsed. */
  lemma DaysRemainingZeroIffExpired(l: Licence, now: int)
    requires l.trialStartedAt.Some?
    ensures DaysRemaining(l, now) == 0 <==> Elapsed(l, now) >= TrialMs
  {
  }

  /** During the trial the count shown runs from 7 down to 1. */
  lemma DaysRemainingDuringTrial(l: Licence, now: int)
    requires l.trialStartedAt.Some?
    requires 0 <= Elapsed(l, now) < TrialMs
    ensures 1 <= DaysRemaining(l, now) <= 7
  {
  }

  /** For an unpaid user, premium access and a positive day count are the
      same thing: the two functions draw the trial boundary in one place. */
  lemma PremiumIffDaysRemain(l: Licence, now: int)
    requires !l.paid
    ensures HasPremiumAccess(l, now) <==> DaysRemaining(l, now) > 0
  {
    if l.trialStartedAt.Some? {
      DaysRemainingZeroIffExpired(l, now);
    }
  }

  /** Start of the reminder window: six days into the trial. */
  const ReminderFromMs: int := 6 * DayMs

  /** End of the reminder window: a further two days, eight days in. */
  const ReminderUntilMs: int := ReminderFromMs + 2 * DayMs

  /** Outcome of `checkTrialReminder`: whether the prompt is shown, and the
      stored `trimless-reminder-shown` day key afterwards. */
  datatype Reminder = Reminder(show: bool, shownOn: Option<DayKey>)

  /** `checkTrialReminder`: an unpaid user whose trial is strictly between
      six and eight days old is reminded at most once per day key; showing
      the reminder records today's key. */
  function CheckTrialReminder(l: Licence, now: int, shownOn: Option<DayKey>, today: DayKey): (r: Reminder)
    ensures r.show ==> l.trialStartedAt.Some? && !l.paid && shownOn != Some(today)
    ensures r.show ==> ReminderFromMs < Elapsed(l, now) < ReminderUntilMs
    ensures r.show ==> r.shownOn == Some(today)
    ensures !r.show ==> r.shownOn == shownOn
  {
    if l.trialStartedAt.None? || l.paid then Reminder(false, shownOn)
    else
      var elapsed := Elapsed(l, now);
      if ReminderFromMs < elapsed && elapsed < ReminderUntilMs then
        if shownOn != Some(today) then Reminder(true, Some(today))
        else Reminder(false, shownOn)
      else Reminder(false, shownOn)
  }

  /** Every condition of the reminder is also sufficient: an unpaid trial
      inside the window that was not yet reminded today is reminded. */
  lemma ReminderShownWhenDue(l: Licence, now: int, shownOn: Option<DayKey>, today: DayKey)
    requires l.trialStartedAt.Some? && !l.paid && shownOn != Some(today)
    requires ReminderFromMs < Elapsed(l, now) < ReminderUntilMs
    ensures CheckTrialReminder(l, now, shownOn, today).show
  {
  }

  /** After the reminder was shown, a second check on the same day shows
      nothing, whatever the time. */
  lemma ReminderOncePerDay(l: Licence, now: int, later: int, shownOn: Option<DayKey>, today: DayKey)
    requires CheckTrialReminder(l, now, shownOn, today).show
    ensures !CheckTrialReminder(l, later, CheckTrialReminder(l, now, shownOn, today).shownOn, today).show
  {
  }

  /** The reminder fires only on the last trial day or the day after it:
      at most one day of the trial is left when it shows. */
  lemma ReminderNearTrialEnd(l: Licence, now: int, shownOn: Option<DayKey>, today: DayKey)
    requires CheckTrialReminder(l, now, shownOn, today).show
    ensures DaysRemaining(l, now) <= 1
  {
  }

  /** The two-day window reaches one day past expiry: from the instant
      the trial ends until eight days in, a user without access who was not
      reminded today is still told the trial is "ending soon". */
  lemma ReminderOutlivesTrial(l: Licence, now: int, shownOn: Option<DayKey>, today: DayKey)
    requires !l.paid && l.trialStartedAt.Some? && shownOn != Some(today)
    requires TrialMs <= Elapsed(l, now) < ReminderUntilMs
    ensures CheckTrialReminder(l, now, shownOn, today).show && !HasPremiumAccess(l, now)
  {
  }
}
