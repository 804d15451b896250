/**
 * The dashboard overview: a preview of the first pending todos, whether
 * today is already marked, and the streak (its own copy of the streak loop,
 * which computes the same function as the streak page's).
 */
module Dashboard {
  import opened Days
  import opened Storage
  import opened TodoPage
  import opened StreakPage

  const PreviewSize: nat := 3

  /** `pendingTodos`: the first three todos not yet completed, in list order. */
  function PendingPreview(ts: seq<Todo>): (r: seq<Todo>)
    ensures |r| <= PreviewSize
    ensures forall i :: 0 <= i < |r| ==> !r[i].completed && r[i] in ts
    ensures |r| <= |Pending(ts)| && r == Pending(ts)[..|r|]
    ensures |r| < PreviewSize ==> r == Pending(ts)
  {
    var p := Pending(ts);
    var r := if |p| <= PreviewSize then p else p[..PreviewSize];
    assert forall i :: 0 <= i < |r| ==> r[i] in p;
    r
  }

  /** `completedToday`: today's key is in the ledger; the same as a positive streak. */
  function CompletedToday(dates: set<string>, today: Day): (done: bool)
    ensures done <==> Streak(dates, today) > 0
  {
    StreakZeroIff(dates, today);
    Key(today) in dates
  }

  /** The dashboard's copy of `computeCurrentStreak`: the same function as the streak page's. */
  method DashboardStreak(dates: set<string>, today: Day) returns (streak: nat)
    ensures IsStreak(dates, today, streak)
    ensures streak == Streak(dates, today)
  {
    streak := 0;
    while Key(today - streak) in dates
      invariant MarkedRun(dates, today, streak)
      invariant streak <= |dates|
      decreases |dates| - streak
    {
      RunWithinLedger(dates, today, streak + 1);
      streak := streak + 1;
    }
    StreakUnique(dates, today, streak, Streak(dates, today));
  }

  /** The page as rendered from the stored list and the stored activity slot. */
  method Overview(todos: seq<Todo>, slots: Slots, today: Day) returns (preview: seq<Todo>, done: bool, streak: nat)
    ensures preview == PendingPreview(todos)
    ensures done <==> Key(today) in LoadLedger(slots)
    ensures streak == Streak(LoadLedger(slots), today)
    ensures done <==> streak > 0
  {
    var dates := LoadLedger(slots);
    preview := PendingPreview(todos);
    done := CompletedToday(dates, today);
    streak := DashboardStreak(dates, today);
  }
}
