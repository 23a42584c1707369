/** The free-tier quota of the content script: per calendar day a user
    without premium access may untrim threads from at most five distinct
    threads; repeat visits to a counted thread are free, and a new day
    starts from an empty record. */
module Quota {
  import opened Prelude
  import opened Entitlement
  import opened ThreadId

  /** Distinct threads a free user may untrim per day. */
  const DailyLimit: int := 5

  /** The stored `trimless-daily-usage` record: the day it belongs to
      (`null` before first use), the thread ids counted on that day in the
      order they were first seen, and their number. */
  datatype Usage = Usage(date: Option<DayKey>, threads: seq<string>, count: int)

  /** The record written at install time and used when none is stored. */
  const InitialUsage: Usage := Usage(None, [], 0)

  /** The empty record a new day starts from. */
  function FreshDay(today: DayKey): Usage {
    Usage(Some(today), [], 0)
  }

  /** No thread id occurs twice in `s`. */
  predicate NoDuplicates(s: seq<string>) {
    forall i, j :: 0 <= i < j < |s| ==> s[i] != s[j]
  }

  /** The record's invariant: the count is the number of counted threads,
      no thread is counted twice, and the limit is never exceeded. */
  predicate Valid(u: Usage) {
    && u.count == |u.threads|
    && u.count <= DailyLimit
    && NoDuplicates(u.threads)
  }

  /** The install-time record and a new day's record both satisfy the
      invariant, so every record the tracker builds from them does too. */
  lemma InitialRecordsValid(today: DayKey)
    ensures Valid(InitialUsage) && Valid(FreshDay(today))
    ensures Counted(InitialUsage) == {} && Counted(FreshDay(today)) == {}
  {
  }

  /** The set of thread ids a record has counted. */
  function Counted(u: Usage): set<string> {
    set t | t in u.threads
  }

  /** A list without repeats has as many distinct members as entries. */
  lemma {:induction false} DistinctCardinality(s: seq<string>)
    requires NoDuplicates(s)
    ensures |set t | t in s| == |s|
  {
    if s != [] {
      var init := s[..|s| - 1];
      var last := s[|s| - 1];
      assert NoDuplicates(init);
      DistinctCardinality(init);
      assert (set t | t in s) == (set t | t in init) + {last};
      assert last !in (set t | t in init);
    }
  }

  /** Outcome of one untrim request: whether the untrim may proceed, the
      in-memory record afterwards, whether the upgrade prompt is shown,
      and whether the record is written back to storage. */
  datatype Decision = Decision(allowed: bool, usage: Usage, prompt: bool, saved: bool)

  /** The record `trackEmailUntrim` works on for `today`: the stored one
      if it is today's, else an empty one for today. */
  function DayRecord(u: Usage, today: DayKey): (v: Usage)
    ensures v.date == Some(today)
    ensures Valid(u) ==> Valid(v)
  {
    if u.date != Some(today) then FreshDay(today) else u
  }

  /** The quota decision of `trackEmailUntrim` once a thread id is known:
      a thread already counted today passes, a new thread is refused once
      five are counted, and otherwise it is appended and counted. */
  function Admit(u: Usage, today: DayKey, id: string): (d: Decision)
    ensures d.allowed <==> id in d.usage.threads
    ensures d.prompt <==> !d.allowed
    ensures !d.allowed ==> d.usage == u && !d.saved && u.count >= DailyLimit
    ensures d.usage.date == Some(today)
    ensures DayRecord(u, today).threads <= d.usage.threads
    ensures d.saved <==> |d.usage.threads| == |DayRecord(u, today).threads| + 1
    ensures d.usage.count - DayRecord(u, today).count == |d.usage.threads| - |DayRecord(u, today).threads|
    ensures Valid(u) ==> Valid(d.usage)
  {
    var v := DayRecord(u, today);
    if id in v.threads then Decision(true, v, false, false)
    else if v.count >= DailyLimit then Decision(false, v, true, false)
    else Decision(true, Usage(Some(today), v.threads + [id], v.count + 1), false, true)
  }

  /** `trackEmailUntrim`: premium access and an undetectable thread both
      pass without touching the record; otherwise the quota decides. */
  function TrackEmailUntrim(l: Licence, now: int, today: DayKey, hash: string, u: Usage): (d: Decision)
    ensures HasPremiumAccess(l, now) ==> d == Decision(true, u, false, false)
    ensures CurrentThreadId(hash).None? ==> d == Decision(true, u, false, false)
    ensures d.prompt <==> !d.allowed
    ensures !d.allowed ==> d.usage == u && !d.saved
    ensures d.saved ==> d.allowed && d.usage.count == DayRecord(u, today).count + 1
    ensures Valid(u) ==> Valid(d.usage)
  {
    if HasPremiumAccess(l, now) then Decision(true, u, false, false)
    else
      match CurrentThreadId(hash)
      case None => Decision(true, u, false, false)
      case Some(id) => Admit(u, today, id)
  }

  /** A free user on a detected thread goes through the quota. */
  lemma TrackIsAdmit(l: Licence, now: int, today: DayKey, hash: string, u: Usage)
    requires !HasPremiumAccess(l, now) && CurrentThreadId(hash).Some?
    ensures TrackEmailUntrim(l, now, today, hash, u) == Admit(u, today, CurrentThreadId(hash).value)
  {
  }

  /** The first new-thread request of a day is never refused, whatever
      the previous day's record held: it starts a one-thread record. */
  lemma NewDayNeverDenies(u: Usage, today: DayKey, id: string)
    requires u.date != Some(today)
    ensures Admit(u, today, id) == Decision(true, Usage(Some(today), [id], 1), false, true)
  {
  }

  /** A thread counted today passes and changes nothing. */
  lemma RepeatThreadIsFree(u: Usage, today: DayKey, id: string)
    requires u.date == Some(today) && id in u.threads
    ensures Admit(u, today, id) == Decision(true, u, false, false)
  {
  }

  /** A sixth distinct thread on the same day is refused with the upgrade
      prompt, and the refusal leaves the record as it was. */
  lemma NewThreadAtLimitDenied(u: Usage, today: DayKey, id: string)
    requires u.date == Some(today) && id !in u.threads && u.count >= DailyLimit
    ensures Admit(u, today, id) == Decision(false, u, true, false)
  {
  }

  /** Below the limit a new thread is appended, counted once and saved. */
  lemma NewThreadCounted(u: Usage, today: DayKey, id: string)
    requires u.date == Some(today) && id !in u.threads && u.count < DailyLimit
    ensures Admit(u, today, id) == Decision(true, Usage(Some(today), u.threads + [id], u.count + 1), false, true)
  {
  }

  /** The quota read as a set of counted threads: a member is admitted,
      a newcomer is refused when the set is full, and otherwise the
      newcomer is added. */
  function AdmitSpec(counted: set<string>, id: string): (bool, set<string>)
  {
    if id in counted then (true, counted)
    else if |counted| >= DailyLimit then (false, counted)
    else (true, counted + {id})
  }

  /** On a valid record, the sequence-and-counter implementation makes the
      same decision as the set reading, and counts the same set. */
  lemma AdmitRefinesSpec(u: Usage, today: DayKey, id: string)
    requires Valid(u)
    ensures var d := Admit(u, today, id);
            var before := if u.date == Some(today) then Counted(u) else {};
            (d.allowed, Counted(d.usage)) == AdmitSpec(before, id)
  {
    var v := DayRecord(u, today);
    assert Counted(v) == (if u.date == Some(today) then Counted(u) else {});
    DistinctCardinality(v.threads);
    var d := Admit(u, today, id);
    if d.saved {
      assert d.usage.threads == v.threads + [id];
      assert Counted(d.usage) == Counted(v) + {id};
    }
  }

  /** The verdicts of a run of requests for detected threads on one day,
      by a user without premium access, and the record it leaves. */
  datatype DayLog = DayLog(usage: Usage, verdicts: seq<bool>)

  /** Requests for `ids`, in order, each through `Admit` on the record
      the previous one left. */
  function AdmitAll(u: Usage, today: DayKey, ids: seq<string>): (log: DayLog)
    ensures |log.verdicts| == |ids|
    decreases |ids|
  {
    if ids == [] then DayLog(u, [])
    else
      var d := Admit(u, today, ids[0]);
      var rest := AdmitAll(d.usage, today, ids[1..]);
      DayLog(rest.usage, [d.allowed] + rest.verdicts)
  }

  /** Over a day the record only grows: it stays valid, keeps the threads
      it had, and every admitted request's thread is counted at the end, so
      an admitted thread is admitted again on every later request. */
  lemma {:induction false} DayOnlyGrows(u: Usage, today: DayKey, ids: seq<string>)
    requires Valid(u) && u.date == Some(today)
    ensures var log := AdmitAll(u, today, ids);
            && Valid(log.usage)
            && log.usage.date == Some(today)
            && u.threads <= log.usage.threads
            && forall i :: 0 <= i < |ids| && log.verdicts[i] ==> ids[i] in log.usage.threads
    decreases |ids|
  {
    if ids != [] {
      var d := Admit(u, today, ids[0]);
      DayOnlyGrows(d.usage, today, ids[1..]);
      var log := AdmitAll(u, today, ids);
      var rest := AdmitAll(d.usage, today, ids[1..]);
      forall i | 0 <= i < |ids| && log.verdicts[i]
        ensures ids[i] in log.usage.threads
      {
        if i == 0 {
          assert ids[0] in d.usage.threads;
        } else {
          assert log.verdicts[i] == rest.verdicts[i - 1];
          assert ids[i] == ids[1..][i - 1];
        }
      }
    }
  }

  /** Once five distinct threads are counted, the day is frozen: the
      record never changes again, the five stay admitted, and every other
      thread is refused. */
  lemma {:induction false} FullDayIsFrozen(u: Usage, today: DayKey, ids: seq<string>)
    requires Valid(u) && u.date == Some(today) && u.count == DailyLimit
    ensures var log := AdmitAll(u, today, ids);
            && log.usage == u
            && forall i :: 0 <= i < |ids| ==> (log.verdicts[i] <==> ids[i] in u.threads)
    decreases |ids|
  {
    if ids != [] {
      var d := Admit(u, today, ids[0]);
      assert d.usage == u;
      FullDayIsFrozen(u, today, ids[1..]);
      var log := AdmitAll(u, today, ids);
      var rest := AdmitAll(u, today, ids[1..]);
      forall i | 0 <= i < |ids|
        ensures log.verdicts[i] <==> ids[i] in u.threads
      {
        if i > 0 {
          assert log.verdicts[i] == rest.verdicts[i - 1];
          assert ids[i] == ids[1..][i - 1];
        }
      }
    }
  }

  /** Outcome of `isDailyLimitReached`: the answer, the in-memory record
      afterwards, and whether the record is written back. */
  datatype LimitCheck = LimitCheck(reached: bool, usage: Usage, saved: bool)

  /** `isDailyLimitReached`: never for premium users; a stale record is
      reset to today's empty one and saved; otherwise the limit is reached
      when five threads are counted. */
  function IsDailyLimitReached(l: Licence, now: int, today: DayKey, u: Usage): (c: LimitCheck)
    ensures c.reached ==> !HasPremiumAccess(l, now) && u.date == Some(today) && u.count >= DailyLimit
    ensures c.reached || c.saved ==> !HasPremiumAccess(l, now)
    ensures c.saved ==> c.usage == FreshDay(today) && u.date != Some(today)
    ensures !c.saved ==> c.usage == u
    ensures Valid(u) ==> Valid(c.usage)
    ensures HasPremiumAccess(l, now) ==> c == LimitCheck(false, u, false)
    ensures !HasPremiumAccess(l, now) && u.date != Some(today) ==> c == LimitCheck(false, FreshDay(today), true)
    ensures !HasPremiumAccess(l, now) && u.date == Some(today) ==> c == LimitCheck(u.count >= DailyLimit, u, false)
  {
    if HasPremiumAccess(l, now) then LimitCheck(false, u, false)
    else if u.date != Some(today) then LimitCheck(false, FreshDay(today), true)
    else LimitCheck(u.count >= DailyLimit, u, false)
  }

  /** The check and the tracker agree: for a free user on a thread not yet
      counted today, the limit is reported reached exactly when the
      tracker would refuse that thread. */
  lemma LimitCheckPredictsDenial(l: Licence, now: int, today: DayKey, hash: string, u: Usage)
    requires !HasPremiumAccess(l, now)
    requires CurrentThreadId(hash).Some?
    requires CurrentThreadId(hash).value !in DayRecord(u, today).threads
    ensures IsDailyLimitReached(l, now, today, u).reached <==> !TrackEmailUntrim(l, now, today, hash, u).allowed
  {
  }

  /** The reset done by the check is the one the tracker would do itself:
      tracking after the check decides exactly as tracking without it. */
  lemma CheckThenTrack(l: Licence, now: int, today: DayKey, hash: string, u: Usage)
    ensures var c := IsDailyLimitReached(l, now, today, u);
            var before := TrackEmailUntrim(l, now, today, hash, u);
            var after := TrackEmailUntrim(l, now, today, hash, c.usage);
            && after.allowed == before.allowed
            && after.prompt == before.prompt
            && (CurrentThreadId(hash).Some? ==> after.usage == before.usage)
  {
  }
}
