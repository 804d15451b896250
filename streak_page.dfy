/**
 * The streak page: the activity ledger (a set of day keys loaded from the
 * `activityDates` slot), the current streak computed from it, the calendar
 * window the page shows, and toggling a day by hand.
 */
module StreakPage {
  import opened Days
  import opened Storage

  /** Today and the `n - 1` days before it are all marked. */
  predicate MarkedRun(dates: set<string>, today: Day, n: nat) {
    forall d: Day :: today - n < d <= today ==> Key(d) in dates
  }

  /** `n` is the length of the run of marked days ending today: the day before the run is unmarked. */
  predicate IsStreak(dates: set<string>, today: Day, n: nat) {
    MarkedRun(dates, today, n) && Key(today - n) !in dates
  }

  /** The keys of today and the `n - 1` days before it. */
  function RunKeys(today: Day, n: nat): set<string> {
    set d: Day | today - n < d <= today :: Key(d)
  }

  /** The streak as a definition: walk back from today until a day is missing. */
  function Streak(dates: set<string>, today: Day): (n: nat)
    ensures IsStreak(dates, today, n)
    decreases |dates|
  {
    if Key(today) in dates then
      var rest := Streak(dates - {Key(today)}, today - 1);
      ExtendRun(dates, today, rest);
      1 + rest
    else 0
  }

  /** A run ending yesterday in the ledger without today's key, with today marked, is a run one longer ending today. */
  lemma ExtendRun(dates: set<string>, today: Day, rest: nat)
    requires Key(today) in dates
    requires IsStreak(dates - {Key(today)}, today - 1, rest)
    ensures IsStreak(dates, today, 1 + rest)
  {
    var earlier := dates - {Key(today)};
    var gap := today - (1 + rest);
    assert MarkedRun(earlier, today - 1, rest);
    forall d: Day | gap < d <= today
      ensures Key(d) in dates
    {
      if d != today {
        assert today - 1 - rest < d <= today - 1;
      }
    }
    assert Key(gap) !in earlier;
    KeyInjective(gap, today);
  }

  lemma SubsetSize<T>(a: set<T>, b: set<T>)
    requires a <= b
    ensures |a| <= |b|
  {
    assert b == a + (b - a);
  }

  /** A day older than a run has a key outside the run's keys. */
  lemma KeyOutsideRun(today: Day, n: nat, e: Day)
    requires e <= today - n
    ensures Key(e) !in RunKeys(today, n)
  {
    if Key(e) in RunKeys(today, n) {
      var d :| today - n < d <= today && Key(d) == Key(e);
      KeyInjective(d, e);
    }
  }

  /** A run one day longer adds the key of its oldest day. */
  lemma RunKeysStep(today: Day, n: nat)
    requires n > 0
    ensures RunKeys(today, n) == RunKeys(today, n - 1) + {Key(today - (n - 1))}
  {
    forall x | x in RunKeys(today, n)
      ensures x in RunKeys(today, n - 1) + {Key(today - (n - 1))}
    {
      var d :| today - n < d <= today && x == Key(d);
      if d != today - (n - 1) {
        assert today - (n - 1) < d <= today;
      }
    }
  }

  /** The keys of a run of `n` days are `n` distinct keys. */
  lemma {:induction false} RunKeysSize(today: Day, n: nat)
    ensures |RunKeys(today, n)| == n
  {
    if n > 0 {
      RunKeysSize(today, n - 1);
      RunKeysStep(today, n);
      KeyOutsideRun(today, n - 1, today - (n - 1));
    }
  }

  /** A marked run is never longer than the number of marked days. */
  lemma RunWithinLedger(dates: set<string>, today: Day, n: nat)
    requires MarkedRun(dates, today, n)
    ensures n <= |dates|
  {
    RunKeysSize(today, n);
    SubsetSize(RunKeys(today, n), dates);
  }

  /** `computeCurrentStreak`: count marked days walking back from today, stopping at the first gap. */
  method CurrentStreak(dates: set<string>, today: Day) returns (streak: nat)
    ensures IsStreak(dates, today, streak)
    ensures streak == Streak(dates, today)
    ensures streak <= |dates|
  {
    streak := 0;
    while Key(today - streak) in dates
      invariant MarkedRun(dates, today, streak)
      invariant streak <= |dates|
      decreases |dates| - streak
    {
      RunWithinLedger(dates, today, streak + 1);
      streak := streak + 1;
    }
    StreakUnique(dates, today, streak, Streak(dates, today));
  }

  /** Two streak lengths for the same ledger and day are equal: the run is maximal. */
  lemma StreakUnique(dates: set<string>, today: Day, n: nat, m: nat)
    requires IsStreak(dates, today, n) && IsStreak(dates, today, m)
    ensures n == m
  {
  }

  /** A marked run of `n` days ending today makes the streak at least `n`. */
  lemma StreakCoversRun(dates: set<string>, today: Day, n: nat)
    requires MarkedRun(dates, today, n)
    ensures Streak(dates, today) >= n
  {
  }

  /** The streak is zero exactly when today is not marked; an empty ledger has streak zero. */
  lemma StreakZeroIff(dates: set<string>, today: Day)
    ensures Streak(dates, today) == 0 <==> Key(today) !in dates
    ensures Streak({}, today) == 0
  {
    if Streak(dates, today) > 0 {
      assert Key(today - 0) in dates;
    }
  }

  /** A missing day `g` days back caps the streak at `g`. */
  lemma GapCapsStreak(dates: set<string>, today: Day, g: nat)
    requires Key(today - g) !in dates
    ensures Streak(dates, today) <= g
  {
  }

  /** Days before the first gap do not matter: ledgers agreeing up to the gap have the same streak. */
  lemma StreakIgnoresOlderDays(a: set<string>, b: set<string>, today: Day)
    requires forall d: Day :: today - Streak(a, today) <= d <= today ==> (Key(d) in a <==> Key(d) in b)
    ensures Streak(b, today) == Streak(a, today)
  {
    var n := Streak(a, today);
    assert IsStreak(b, today, n);
    StreakUnique(b, today, n, Streak(b, today));
  }

  /** Marking exactly the last `n` days, today included, gives streak `n`. */
  lemma ConsecutiveDaysStreak(today: Day, n: nat)
    ensures Streak(RunKeys(today, n), today) == n
  {
    var dates := RunKeys(today, n);
    KeyOutsideRun(today, n, today - n);
    assert MarkedRun(dates, today, n);
    StreakUnique(dates, today, n, Streak(dates, today));
  }

  /** Marking today on top of a run that ended yesterday extends that run by one. */
  lemma MarkTodayExtends(dates: set<string>, today: Day)
    ensures Streak(dates + {Key(today)}, today) == 1 + Streak(dates, today - 1)
  {
    var m := Streak(dates, today - 1);
    var marked := dates + {Key(today)};
    KeyInjective(today - 1 - m, today);
    assert MarkedRun(marked, today, 1 + m);
    StreakUnique(marked, today, 1 + m, Streak(marked, today));
  }

  /** Yesterday and the day before marked, today not: streak 0; marking today makes it at least 3. */
  lemma YesterdayRunScenario(dates: set<string>, today: Day)
    requires Key(today - 1) in dates && Key(today - 2) in dates && Key(today) !in dates
    ensures Streak(dates, today) == 0
    ensures Streak(dates + {Key(today)}, today) >= 3
  {
    StreakZeroIff(dates, today);
    MarkTodayExtends(dates, today);
    assert MarkedRun(dates, today - 1, 2);
    StreakCoversRun(dates, today - 1, 2);
  }

  /** `generateCalendar(rangeDays)`: the `rangeDays` days ending today, oldest first. */
  method GenerateCalendar(rangeDays: int, today: Day) returns (days: seq<Day>)
    ensures |days| == if rangeDays > 0 then rangeDays else 0
    ensures forall j :: 0 <= j < |days| ==> days[j] == today - (|days| - 1) + j
    ensures |days| > 0 ==> days[|days| - 1] == today
  {
    days := [];
    var i := rangeDays - 1;
    while i >= 0
      invariant rangeDays <= 0 ==> i == rangeDays - 1 && days == []
      invariant rangeDays > 0 ==> -1 <= i <= rangeDays - 1 && |days| == rangeDays - 1 - i
      invariant forall j :: 0 <= j < |days| ==> days[j] == today - (rangeDays - 1) + j
    {
      days := days + [today - i];
      i := i - 1;
    }
  }

  /** The keys a stored activity value contributes: the strings of an array, nothing for any other value. */
  function LedgerOf(v: Json): (r: set<string>)
    ensures !v.JArr? ==> r == {}
    ensures v.JArr? ==> forall s :: s in r <==> JStr(s) in v.items
  {
    if v.JArr? then set x | x in v.items && x.JStr? :: x.s else {}
  }

  /** The ledger as the page loads it from storage. */
  function LoadLedger(slots: Slots): (r: set<string>)
    ensures ActivityKey in slots && slots[ActivityKey].Holds? && slots[ActivityKey].value.JArr? ==>
      forall s :: s in r <==> JStr(s) in slots[ActivityKey].value.items
    ensures !(ActivityKey in slots && slots[ActivityKey].Holds? && slots[ActivityKey].value.JArr?) ==> r == {}
  {
    LedgerOf(ReadJson(slots, ActivityKey, JArr([])))
  }

  /** The ledger with one key's membership flipped. */
  function ToggledKey(dates: set<string>, key: string): (r: set<string>)
    ensures key in r <==> key !in dates
    ensures forall other :: other != key ==> (other in r <==> other in dates)
  {
    if key in dates then dates - {key} else dates + {key}
  }

  /** Toggling the same day twice restores the ledger. */
  lemma ToggleKeyTwice(dates: set<string>, key: string)
    ensures ToggledKey(ToggledKey(dates, key), key) == dates
  {
  }

  const CalendarDays: int := 28

  /** The page's state: the ledger it loaded and edits. */
  class StreakPageState {
    var activityDates: set<string>

    /** Mounting the page: a stored value that is not an array loads as the empty ledger. */
    constructor Load(slots: Slots)
      ensures activityDates == LoadLedger(slots)
    {
      activityDates := LoadLedger(slots);
    }

    /** `toggleDay(date)`: remove the day's key if present, add it otherwise. */
    method ToggleDay(d: Day)
      modifies this
      ensures activityDates == ToggledKey(old(activityDates), Key(d))
    {
      var key := Key(d);
      if key in activityDates {
        activityDates := activityDates - {key};
      } else {
        activityDates := activityDates + {key};
      }
    }

    /** What the page shows: the streak, the 28-day calendar and which of its days are marked. */
    method Render(today: Day) returns (streak: nat, days: seq<Day>, active: seq<bool>)
      ensures IsStreak(activityDates, today, streak)
      ensures |days| == CalendarDays && days[CalendarDays - 1] == today
      ensures forall j :: 0 <= j < |days| ==> days[j] == today - (CalendarDays - 1) + j
      ensures |active| == |days|
      ensures forall j :: 0 <= j < |days| ==> (active[j] <==> Key(days[j]) in activityDates)
    {
      streak := CurrentStreak(activityDates, today);
      days := GenerateCalendar(CalendarDays, today);
      var marked := activityDates;
      active := seq(|days|, j requires 0 <= j < |days| => Key(days[j]) in marked);
    }
  }
}
