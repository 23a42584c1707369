/** The licence status shown on the options page (`updatePremiumStatus`
    and `showFreeStatus`): paid, an active trial with its days left, or
    the free tier with today's count of untrimmed threads. The page reads
    the same stored licence and usage record as the content script and
    re-derives the trial boundary itself. */
module StatusPage {
  import opened Prelude
  import opened Entitlement
  import opened Quota

  /** Which status section is shown, with the number it displays. */
  datatype Status = Paid | Trial(daysRemaining: int) | Free(usedToday: int)

  /** `showFreeStatus`: the stored count if the record is today's, else 0.
      A missing record stands for the install-time one, which shows 0. */
  function FreeCount(stored: Option<Usage>, today: DayKey): (n: int)
    ensures stored.Some? && stored.value.date == Some(today) ==> n == stored.value.count
    ensures stored.None? || stored.value.date != Some(today) ==> n == 0
  {
    var u := stored.GetOr(InitialUsage);
    if u.date == Some(today) then u.count else 0
  }

  /** `updatePremiumStatus` after a successful storage read. */
  function PremiumStatus(paid: bool, trialStartedAt: Option<int>, stored: Option<Usage>,
                         now: int, today: DayKey): (s: Status)
    ensures paid ==> s == Paid
    ensures s.Trial? <==> !paid && trialStartedAt.Some? && now - trialStartedAt.value < TrialMs
    ensures !paid && !s.Trial? ==> s.Free?
    ensures s.Trial? ==> (s.daysRemaining - 1) * DayMs < TrialMs - (now - trialStartedAt.value) <= s.daysRemaining * DayMs
    ensures s.Free? ==> s.usedToday == FreeCount(stored, today)
  {
    if paid then Paid
    else if trialStartedAt.Some? then
      var elapsed := now - trialStartedAt.value;
      if elapsed < TrialMs then
        var days := CeilDays(TrialMs - elapsed);
        Trial(if days < 0 then 0 else days)
      else Free(FreeCount(stored, today))
    else Free(FreeCount(stored, today))
  }

  /** The page and the content script draw the same line: the paid or
      trial section is shown exactly when the content script grants
      premium access, and the trial section shows the same day count as
      `getDaysRemainingInTrial`. */
  lemma StatusAgreesWithAccess(paid: bool, trialStartedAt: Option<int>, stored: Option<Usage>,
                               now: int, today: DayKey)
    ensures var s := PremiumStatus(paid, trialStartedAt, stored, now, today);
            var l := Licence(paid, trialStartedAt);
            && (s.Paid? || s.Trial? <==> HasPremiumAccess(l, now))
            && (s.Trial? ==> s.daysRemaining == DaysRemaining(l, now) && s.daysRemaining >= 1)
  {
    var s := PremiumStatus(paid, trialStartedAt, stored, now, today);
    var l := Licence(paid, trialStartedAt);
    if s.Trial? {
      DaysRemainingZeroIffExpired(l, now);
    }
  }

  /** During a trial that has really begun, the page shows 1 to 7 days. */
  lemma TrialDaysShown(trialStart: int, stored: Option<Usage>, now: int, today: DayKey)
    requires 0 <= now - trialStart < TrialMs
    ensures var s := PremiumStatus(false, Some(trialStart), stored, now, today);
            s.Trial? && 1 <= s.daysRemaining <= 7
  {
    DaysRemainingDuringTrial(Licence(false, Some(trialStart)), now);
  }

  /** An expired trial and a trial never started look the same. */
  lemma ExpiredTrialIsFree(trialStart: int, stored: Option<Usage>, now: int, today: DayKey)
    requires now - trialStart >= TrialMs
    ensures PremiumStatus(false, Some(trialStart), stored, now, today)
         == PremiumStatus(false, None, stored, now, today)
         == Free(FreeCount(stored, today))
  {
  }

  /** The free count shown never exceeds the limit for a valid record, and
      reaches it exactly when the content script reports today's limit
      reached. */
  lemma FreeCountMatchesQuota(l: Licence, now: int, today: DayKey, u: Usage)
    requires Valid(u) && !HasPremiumAccess(l, now)
    ensures 0 <= FreeCount(Some(u), today) <= DailyLimit
    ensures FreeCount(Some(u), today) >= DailyLimit <==> IsDailyLimitReached(l, now, today, u).reached
  {
  }

  /** After an admitted untrim of a new thread, the page shows one more
      thread used today than it did before. */
  lemma FreeCountAfterAdmit(l: Licence, now: int, today: DayKey, hash: string, u: Usage)
    requires TrackEmailUntrim(l, now, today, hash, u).saved
    ensures FreeCount(Some(TrackEmailUntrim(l, now, today, hash, u).usage), today)
         == FreeCount(Some(u), today) + 1
  {
  }
}
