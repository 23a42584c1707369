# Trimless: a verified model of the quota, entitlement and scheduler logic

Trimless is a browser extension for a webmail interface. It shows the
"trimmed" quoted replies of email threads. Most of it is glue around the
page's markup and the extension APIs. This project models the three pieces
of sequential logic in its content script and options page, and proves
properties about them:

- **Quota tracker** (`trackEmailUntrim`, `isDailyLimitReached`). A user
  without premium access may untrim at most five distinct threads per
  calendar day. A thread already counted today is free. A new day starts
  from an empty record. An undetectable thread is let through.
- **Entitlement arithmetic** (`hasPremiumAccess`, `getDaysRemainingInTrial`,
  `checkTrialReminder`, and the status choice of the options page).
  Premium access means paid, or a trial younger than exactly 7 × 86 400 000 ms.
  The trial reminder shows between six and eight days into the trial, at
  most once per day.
- **Debounce scheduler** (`untrimTimer`, with `more` as the trigger and
  `stuff` as the tick). Bursts of page events are coalesced into a
  decaying run of once-a-second re-applications of the transform.
- **Thread id extraction** (`getCurrentThreadId`). The regular expression
  `/\/([a-f0-9]+)$/` is applied to the location hash.

Neither `isDailyLimitReached` nor `getDaysRemainingInTrial` is called
anywhere: both content scripts only define them. `checkTrialReminder`
is called from the `dist` copy's start-up code
(`dist/contentScript.js:395`). So `Quota.IsDailyLimitReached`,
`Quota.LimitCheckPredictsDenial` and `Quota.CheckThenTrack` describe a
check that the program defines but never runs, and
`Entitlement.DaysRemaining` matters only through the options page's own
copy of the arithmetic (`StatusPage.StatusAgreesWithAccess`).

Conventions:

- Time is integer milliseconds.
- "Today" (`Date.toDateString()`) is an opaque `DayKey` string passed in.
- Every cached global the source reads is an explicit parameter: the paid
  flag, the trial start, the usage record, the enabled flag and the hash.
- Storage writes are fire-and-forget. The quota operations return a
  `saved` flag saying whether they write the usage record back.
  `Entitlement.CheckTrialReminder` has no such flag: its write happens
  exactly when `show` holds, and stores the returned `shownOn` key.
- `contentScript.js` and `dist/contentScript.js` agree line for line on
  lines 1-100, and their `untrimTimer` copies are identical. They share
  one model. `checkTrialReminder` exists only in the `dist` copy.

Files, one module each:

- `prelude.dfy`: `Option`, the day and trial constants, `DayKey`.
- `entitlement.dfy`: premium access, days remaining, the trial reminder.
- `thread_id.dfy`: the thread-id regular expression.
- `quota.dfy`: the usage record, `trackEmailUntrim`, `isDailyLimitReached`.
- `scheduler.dfy`: `untrimTimer` and traces of trigger and tick events.
- `status_page.dfy`: the status sections of the options page.

The scheduler state adds one field to the source's `again` and `isTicking`:
`pending`, the number of scheduled `setTimeout(stuff, 1000)` callbacks
that have not fired yet. The invariant `Scheduler.Valid` says:

- `again` stays in [0, 4];
- exactly one tick is pending while ticking, and none while idle;
- an idle scheduler has `again == 0`.

So no trigger can start a second tick loop.

Read as a set of counted threads, the quota is simple. The code keeps a
list and a separate counter. `Quota.AdmitRefinesSpec` proves that the two
readings make the same decisions on every valid record.

One might expect a stale record to be reset before the thread-id check.
The code returns early for an undetectable thread first
(`contentScript.js:66-74`), and the model follows the code: that early
return leaves the stale record untouched.

## Model

| member | source | states |
|---|---|---|
| `Entitlement.HasPremiumAccess` | contentScript.js:17-27 | a paid user always has access; with no paid flag and no trial there is none; an unpaid user with a trial has access exactly when the trial is younger than 604800000 ms |
| `Entitlement.TrialBoundary` | contentScript.js:20-24 | access holds at 6 days 23:59:59 after the trial start, and is gone at exactly 7 days and at 7 days plus one second |
| `Entitlement.ExpiryIsPermanent` | contentScript.js:20-26 | for an unpaid user, once access has lapsed it does not return at any later instant |
| `Entitlement.CeilDays` | dist/contentScript.js:36 | the day count is the ceiling of milliseconds over a day: the least d with ms <= d days |
| `Entitlement.DaysRemaining` | dist/contentScript.js:30-37 | with no trial, or a trial at least seven days old, 0 days remain; during the trial the count is the ceiling of the time left over one day: the least d with (time left) <= d days |
| `Entitlement.DaysRemainingZeroIffExpired` | dist/contentScript.js:31-36 | with a trial, no days remain exactly when at least seven days have elapsed |
| `Entitlement.DaysRemainingDuringTrial` | dist/contentScript.js:33-36 | for elapsed time in [0, 7 days) the days remaining lie in 1..7 |
| `Entitlement.PremiumIffDaysRemain` | dist/contentScript.js:17-37 | for an unpaid user, premium access holds exactly when a positive number of trial days remains |
| `Entitlement.CheckTrialReminder` | dist/contentScript.js:217-239 | the reminder shows only for an unpaid trial strictly between 6 and 8 days old that was not reminded today; showing stores today's key, not showing keeps the stored key |
| `Entitlement.ReminderShownWhenDue` | dist/contentScript.js:218-236 | conversely, every unpaid trial inside the window that was not reminded today is reminded |
| `Entitlement.ReminderOncePerDay` | dist/contentScript.js:226-236 | after a reminder was shown, a second check with the same day key shows nothing, at any time |
| `Entitlement.ReminderNearTrialEnd` | dist/contentScript.js:221-225 | when the reminder shows, at most one trial day remains |
| `Entitlement.ReminderOutlivesTrial` | dist/contentScript.js:224-225 | the two-day window reaches past expiry: for every unpaid trial from exactly seven days until eight days in, a user without access who was not reminded today still gets the "ending soon" reminder |
| `ThreadId.MatchIsUnique` | dist/contentScript.js:42 | the pattern can match at most one '/' of a hash, so its capture group is well defined |
| `ThreadId.HexRunStart` | dist/contentScript.js:42 | finds where the maximal run of `[a-f0-9]` characters ending at a position starts |
| `ThreadId.CurrentThreadId` | dist/contentScript.js:40-44 | an id is found exactly when the regular expression matches, and it is the text after the matched '/' |
| `ThreadId.ThreadIdShape` | dist/contentScript.js:42-43 | an extracted id is a non-empty suffix of the hash, preceded by '/', made of hex digits only, with no '/' in it |
| `ThreadId.ThreadIdOfPath` | dist/contentScript.js:42-43 | any hash ending in '/' plus a non-empty hex id yields exactly that id, whatever precedes it |
| `Quota.InitialRecordsValid` | background.js:56-58 | the install-time record `{null, [], 0}` and a fresh day's record satisfy the invariant and count nothing |
| `Quota.DayRecord` | contentScript.js:69-74 | the record worked on is always dated today and stays valid when the stored one was |
| `Quota.Admit` | contentScript.js:69-98 | a request is admitted exactly when its thread ends up counted; the prompt shows exactly on refusal; a refusal changes nothing and happens only at the limit; today's earlier threads are kept; the count grows with the list; validity is preserved |
| `Quota.TrackEmailUntrim` | contentScript.js:63-99 | premium access or an undetectable thread passes with the record untouched; the upgrade prompt shows only on refusal; a refusal changes and saves nothing; a save counts exactly one more thread |
| `Quota.TrackIsAdmit` | contentScript.js:63-67 | for a free user on a detected thread the decision is the quota's |
| `Quota.NewDayNeverDenies` | contentScript.js:71-93 | on a stale record, the first request of the day is admitted and saved as a one-thread record for today |
| `Quota.RepeatThreadIsFree` | contentScript.js:76-79 | a thread counted today is admitted with the record unchanged and nothing saved |
| `Quota.NewThreadAtLimitDenied` | contentScript.js:81-85 | a new thread with five counted today is refused with the prompt, and the record is unchanged |
| `Quota.NewThreadCounted` | contentScript.js:87-93 | below the limit a new thread is appended, the count rises by one, the date is today, and the record is saved |
| `Quota.AdmitRefinesSpec` | contentScript.js:71-90 | on a valid record the list-and-counter code decides as the set-based quota does and counts the same set of threads |
| `Quota.DayOnlyGrows` | contentScript.js:76-90 | over any run of requests in one day the record stays valid, keeps its earlier threads, and counts every admitted thread |
| `Quota.FullDayIsFrozen` | contentScript.js:76-85 | once five threads are counted, no later request that day changes the record, and a request is admitted exactly when its thread is one of the five |
| `Quota.IsDailyLimitReached` | dist/contentScript.js:47-60 | premium access gives "not reached" with the record untouched; a free user's stale record is reset to today's empty record, saved, and reported not reached; a free user's record for today is left as it is and reported reached exactly when it holds at least five threads; validity is preserved |
| `Quota.LimitCheckPredictsDenial` | dist/contentScript.js:47-60 | for a free user on a thread not counted today, the limit is reported reached exactly when the tracker would refuse that thread |
| `Quota.CheckThenTrack` | dist/contentScript.js:52-57 | the check's reset is the tracker's own: tracking after the check gives the same verdict and prompt, and the same record when a thread is detected |
| `Scheduler.Stuff` | contentScript.js:209-224 | a tick makes exactly one call, and applies exactly when enabled; disabled, it goes idle with `again` 0 and schedules nothing; enabled with `again` non-zero, it schedules one tick and decrements; with `again` 0 it goes idle; a tick keeps the invariant |
| `Scheduler.More` | contentScript.js:194-207 | disabled, a trigger only undoes and changes nothing; while ticking it makes no call and schedules nothing, and raises `again` by one below 4 and not at 4; from idle it applies once at once; an enabled trigger always leaves the scheduler ticking; the invariant is kept |
| `Scheduler.Step` | contentScript.js:190-225 | every event keeps the invariant, and a second passing while idle does nothing |
| `Scheduler.RunKeepsValid` | contentScript.js:190-225 | no sequence of triggers and ticks, with any enabled flags, takes `again` out of [0, 4] or starts a second tick loop |
| `Scheduler.Remaining` | contentScript.js:216-222 | the ticks still to come without a trigger number at most five |
| `Scheduler.QuietPeriodBound` | contentScript.js:209-224 | after the last trigger, at most `again + 1` (so at most five) ticks follow, at most one per second, and the scheduler is idle once that many seconds have passed |
| `Scheduler.QuietPeriodExact` | contentScript.js:216-223 | with the feature enabled, every remaining tick happens and each applies the transform exactly once |
| `Scheduler.IdleStaysIdle` | contentScript.js:216-222 | an idle scheduler has no pending tick, so any number of seconds passing changes nothing and calls nothing |
| `Scheduler.LoneTrigger` | contentScript.js:199-223 | a single trigger from idle applies the transform exactly three times and leaves the scheduler idle |
| `Scheduler.TriggerIsAnswered` | dist/contentScript.js:245-258 | after an enabled trigger one tick is pending, the next second applies the transform, and between two and five ticks are still to come |
| `Scheduler.DisabledNeverApplies` | contentScript.js:195-214 | while the feature stays disabled, every call the scheduler makes is an undo |
| `StatusPage.FreeCount` | options.js:68-73 | the count shown is the stored count when the record is today's, and 0 for another day's record or a missing one |
| `StatusPage.PremiumStatus` | options.js:29-61 | paid wins over any trial state; the trial section shows exactly for an unpaid trial younger than seven days, with the ceiling of the time left over one day as its day count; every other unpaid user sees the free section with today's count |
| `StatusPage.StatusAgreesWithAccess` | options.js:40-53 | the paid or trial section shows exactly when the content script grants premium access, and the trial section shows the same positive day count as the content script |
| `StatusPage.TrialDaysShown` | options.js:49-53 | during a trial that has begun, the page shows between 1 and 7 days |
| `StatusPage.ExpiredTrialIsFree` | options.js:54-61 | an expired trial and a trial never started show the same free status |
| `StatusPage.FreeCountMatchesQuota` | options.js:68-73 | for a valid record the count shown is at most five, and it reaches five exactly when the content script reports today's limit reached |
| `StatusPage.FreeCountAfterAdmit` | options.js:68-73 | after an untrim that counts a new thread, the page shows one more thread used today |

## Left out

- The transform bodies `untrim` and `ununtrim` are left out. They toggle CSS classes against the host page's markup and fetch "View entire message" pages. Both are reduced to the `Apply` and `Undo` calls the scheduler makes.
- Inside `untrim`, `applyOptions` calls `untrimTimer.more()` again. That feedback would keep the tick loop alive. The scheduler is stated with the callback abstracted, and the feedback is not modelled.
- Real timers and async ordering are not modelled. One `setTimeout` second is a `Timeout` event, and awaits are treated as completing in order.
- The asynchronous initial load can race the first `more()`. Before it finishes, the enabled flag is undefined, which is modelled as `enabled == false`.
- Tabs race each other on the stored usage record (last writer wins). Each model call works on one page context's copy.
- Storage failures are not modelled. The `catch` branches only log. When the options page's read fails, it shows the free section without a count.
- The storage-change and message listeners are not modelled. They refresh the cached paid flag, trial start and enabled flag, and those values are parameters of each call instead.
- The click handler `untrimOnClick` is not modelled. Its only logic is a filter in front of `more`.
- The markup of the upgrade and reminder prompts is left out. Their appearance is the `prompt` and `show` flags.
- `applyOptionsInterface` (CSS building), the options form, the colour picker and all of `background.js` are left out. That includes the payment SDK, tabs and icons, and message routing. From `background.js`, only the install-time usage record is used.
- `Date` and `toDateString` are not modelled. Time is integer milliseconds, and the day key is opaque, so local-midnight semantics are assumed rather than modelled.
- `Entitlement.DaysRemaining` and `StatusPage.PremiumStatus` use exact integer ceiling. The source divides in floating point before `Math.ceil`. The two agree for any realistic timestamps.
- Loading the trial start with `items[...] ? new Date(...) : null` is not modelled. It turns a stored 0 into "no trial", and an unparsable value would give NaN comparisons. The model takes the trial start as an `Option<int>` after loading.
