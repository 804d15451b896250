/**
 * The client's todo page: an ordered list of todos kept in the page's
 * state (and mirrored to the `todos` storage slot), plus the write to the
 * `activityDates` slot that completing a todo performs.
 */
module TodoPage {
  import opened Wrappers
  import opened Text
  import opened Seqs
  import opened Days

  /** One item of the list, as the page creates and stores it. */
  datatype Todo = Todo(id: string, title: string, completed: bool, completedAt: Option<Time>, createdAt: Time)

  /** `completedAt` is present exactly when the todo is completed. */
  predicate Consistent(t: Todo) {
    t.completed <==> t.completedAt.Some?
  }

  predicate AllConsistent(ts: seq<Todo>) {
    forall i :: 0 <= i < |ts| ==> Consistent(ts[i])
  }

  predicate IsPending(t: Todo) {
    !t.completed
  }

  function NotId(id: string): Todo -> bool {
    (t: Todo) => t.id != id
  }

  /** A freshly added todo: not completed, no completion time. */
  function NewTodo(id: string, title: string, now: Instant): Todo {
    Todo(id, title, false, None, now)
  }

  /** The list after submitting the draft title `draft` (`addTodo`). */
  function Added(ts: seq<Todo>, draft: string, id: string, now: Instant): (r: seq<Todo>)
    ensures Blank(draft) ==> r == ts
    ensures !Blank(draft) ==> |r| == |ts| + 1 && r[1..] == ts
    ensures !Blank(draft) ==> r[0].id == id && r[0].title == Trim(draft) && r[0].createdAt == now
    ensures !Blank(draft) ==> r[0].title != "" && Trimmed(r[0].title) && !r[0].completed && r[0].completedAt == None
  {
    var trimmed := Trim(draft);
    if trimmed == "" then ts else [NewTodo(id, trimmed, now)] + ts
  }

  /** One todo with its completion flipped, its completion time set or cleared to match. */
  function Flip(t: Todo, now: Instant): Todo {
    t.(completed := !t.completed, completedAt := if !t.completed then Some(now as Time) else None)
  }

  /** The list after `toggleTodo(id)`: every todo with that id flipped, every other todo as it was. */
  function Toggled(ts: seq<Todo>, id: string, now: Instant): (r: seq<Todo>)
    ensures |r| == |ts|
    ensures forall i :: 0 <= i < |ts| && ts[i].id != id ==> r[i] == ts[i]
    ensures forall i :: 0 <= i < |ts| && ts[i].id == id ==>
      && r[i].completed == !ts[i].completed
      && r[i].completedAt == (if r[i].completed then Some(now as Time) else None)
      && r[i].(completed := ts[i].completed, completedAt := ts[i].completedAt) == ts[i]
  {
    seq(|ts|, i requires 0 <= i < |ts| => if ts[i].id == id then Flip(ts[i], now) else ts[i])
  }

  /** The list after `removeTodo(id)`. */
  function Removed(ts: seq<Todo>, id: string): (r: seq<Todo>)
    ensures |r| <= |ts|
    ensures forall t :: t in r <==> t in ts && t.id != id
  {
    Filter(ts, NotId(id))
  }

  /** The todos not yet completed, in list order; `clearCompleted` keeps exactly these. */
  function Pending(ts: seq<Todo>): (r: seq<Todo>)
    ensures |r| <= |ts|
    ensures forall t :: t in r <==> t in ts && !t.completed
  {
    Filter(ts, IsPending)
  }

  /** `remaining`: how many todos are not completed. */
  function Remaining(ts: seq<Todo>): (n: nat)
    ensures n <= |ts|
    ensures n == |ts| <==> forall i :: 0 <= i < |ts| ==> !ts[i].completed
    ensures n == 0 <==> forall i :: 0 <= i < |ts| ==> ts[i].completed
  {
    PendingLength(ts);
    |Pending(ts)|
  }

  /** The number of incomplete todos, counted one todo at a time. */
  function CountPending(ts: seq<Todo>): nat {
    if ts == [] then 0 else (if ts[0].completed then 0 else 1) + CountPending(ts[1..])
  }

  /** `remaining` is the number of incomplete todos. */
  lemma {:induction false} RemainingCounts(ts: seq<Todo>)
    ensures Remaining(ts) == CountPending(ts)
  {
    if ts != [] {
      RemainingCounts(ts[1..]);
    }
  }

  /** No todo is dropped exactly when all are pending; all are dropped exactly when all are completed. */
  lemma PendingLength(ts: seq<Todo>)
    ensures |Pending(ts)| == |ts| <==> forall i :: 0 <= i < |ts| ==> !ts[i].completed
    ensures |Pending(ts)| == 0 <==> forall i :: 0 <= i < |ts| ==> ts[i].completed
  {
    var p := Pending(ts);
    if |p| == |ts| {
      FilterFullLength(ts, IsPending);
    }
    if forall i :: 0 <= i < |ts| ==> !ts[i].completed {
      FilterKeepsAll(ts, IsPending);
    }
    if |p| == 0 {
      forall i | 0 <= i < |ts| ensures ts[i].completed {
        assert ts[i] in ts;
      }
    }
    if |p| > 0 {
      assert p[0] in p;
    }
  }

  /** Whether a todo was completed on the day keyed `dayKey` (the test inside `toggleTodo`). */
  predicate CompletedOn(t: Todo, dayKey: string) {
    t.completed && t.completedAt.Some? && t.completedAt.value != 0 && Key(DayOf(t.completedAt.value)) == dayKey
  }

  predicate AnyCompletedOn(ts: seq<Todo>, dayKey: string) {
    exists i :: 0 <= i < |ts| && CompletedOn(ts[i], dayKey)
  }

  /**
   * The activity set after a toggle produced the list `next` at time `now`:
   * today's key is added when some todo of `next` was completed today.
   * Nothing is ever removed, and no other key is added.
   */
  function MarkActivity(dates: set<string>, next: seq<Todo>, now: Instant): (r: set<string>)
    ensures dates <= r && r <= dates + {Key(DayOf(now))}
    ensures Key(DayOf(now)) in r <==> Key(DayOf(now)) in dates || AnyCompletedOn(next, Key(DayOf(now)))
  {
    var nowKey := Key(DayOf(now));
    if AnyCompletedOn(next, nowKey) then dates + {nowKey} else dates
  }

  /** The page's state: the list, the title being typed, and the activity slot. */
  class TodoPageState {
    var todos: seq<Todo>
    var draft: string
    var activityDates: set<string>

    /** The page as mounted: the stored list and activity set, an empty title field. */
    constructor (storedTodos: seq<Todo>, storedDates: set<string>)
      ensures todos == storedTodos && draft == "" && activityDates == storedDates
    {
      todos := storedTodos;
      draft := "";
      activityDates := storedDates;
    }

    /** Typing in the title field. */
    method EditDraft(text: string)
      modifies this
      ensures draft == text
      ensures todos == old(todos) && activityDates == old(activityDates)
    {
      draft := text;
    }

    /** `addTodo`: a blank title changes nothing; otherwise the trimmed title is prepended and the field cleared. */
    method AddTodo(id: string, now: Instant)
      modifies this
      ensures todos == Added(old(todos), old(draft), id, now)
      ensures draft == if Trim(old(draft)) == "" then old(draft) else ""
      ensures activityDates == old(activityDates)
    {
      var trimmed := Trim(draft);
      if trimmed != "" {
        todos := [NewTodo(id, trimmed, now)] + todos;
        draft := "";
      }
    }

    /** `toggleTodo`: flip the matching todos, then mark today if some todo was completed today. */
    method ToggleTodo(id: string, now: Instant)
      modifies this
      ensures todos == Toggled(old(todos), id, now)
      ensures activityDates == MarkActivity(old(activityDates), todos, now)
      ensures draft == old(draft)
    {
      var next := Toggled(todos, id, now);
      var nowKey := Key(DayOf(now));
      if AnyCompletedOn(next, nowKey) {
        activityDates := activityDates + {nowKey};
      }
      todos := next;
    }

    /** `removeTodo`. */
    method RemoveTodo(id: string)
      modifies this
      ensures todos == Removed(old(todos), id)
      ensures draft == old(draft) && activityDates == old(activityDates)
    {
      todos := Removed(todos, id);
    }

    /** `clearCompleted`. */
    method ClearCompleted()
      modifies this
      ensures todos == Pending(old(todos))
      ensures draft == old(draft) && activityDates == old(activityDates)
    {
      todos := Pending(todos);
    }
  }

  /** Adding keeps every todo's completion time in step with its flag. */
  lemma AddedConsistent(ts: seq<Todo>, draft: string, id: string, now: Instant)
    requires AllConsistent(ts)
    ensures AllConsistent(Added(ts, draft, id, now))
  {
    var r := Added(ts, draft, id, now);
    forall i | 0 <= i < |r| ensures Consistent(r[i]) {
      if !Blank(draft) && i > 0 {
        assert r[i] == ts[i - 1];
      }
    }
  }

  /** Toggling keeps every todo's completion time in step with its flag. */
  lemma ToggledConsistent(ts: seq<Todo>, id: string, now: Instant)
    requires AllConsistent(ts)
    ensures AllConsistent(Toggled(ts, id, now))
  {
  }

  /** Keeping a subset of the todos keeps them consistent. */
  lemma {:induction false} FilterConsistent(ts: seq<Todo>, keep: Todo -> bool)
    requires AllConsistent(ts)
    ensures AllConsistent(Filter(ts, keep))
  {
    var r := Filter(ts, keep);
    forall i | 0 <= i < |r| ensures Consistent(r[i]) {
      assert r[i] in r;
      var j :| 0 <= j < |ts| && ts[j] == r[i];
    }
  }

  /** Removing and clearing keep every todo's completion time in step with its flag. */
  lemma RemovedAndPendingConsistent(ts: seq<Todo>, id: string)
    requires AllConsistent(ts)
    ensures AllConsistent(Removed(ts, id))
    ensures AllConsistent(Pending(ts))
  {
    FilterConsistent(ts, NotId(id));
    FilterConsistent(ts, IsPending);
  }

  /** Completing a todo marks today's key, whatever day the todo was created on. */
  lemma CompletingMarksToday(dates: set<string>, ts: seq<Todo>, id: string, now: Instant, i: nat)
    requires i < |ts| && ts[i].id == id && !ts[i].completed
    ensures Key(DayOf(now)) in MarkActivity(dates, Toggled(ts, id, now), now)
  {
    var next := Toggled(ts, id, now);
    assert CompletedOn(next[i], Key(DayOf(now)));
  }

  /** Marking a day that is already marked is a no-op: the activity set is a set. */
  lemma MarkIdempotent(dates: set<string>, next: seq<Todo>, now: Instant)
    requires Key(DayOf(now)) in dates
    ensures MarkActivity(dates, next, now) == dates
  {
  }

  /** Toggling twice restores todos that were pending (and so had no completion time). */
  lemma ToggleTwiceRestoresPending(ts: seq<Todo>, id: string, now1: Instant, now2: Instant)
    requires AllConsistent(ts)
    requires forall i :: 0 <= i < |ts| && ts[i].id == id ==> !ts[i].completed
    ensures Toggled(Toggled(ts, id, now1), id, now2) == ts
  {
    var r := Toggled(Toggled(ts, id, now1), id, now2);
    forall i | 0 <= i < |ts| ensures r[i] == ts[i] {
      if ts[i].id == id {
        assert ts[i].completedAt == None;
      }
    }
  }

  /** Removal keeps the relative order of the todos it keeps. */
  lemma RemovedKeepsOrder(a: seq<Todo>, b: seq<Todo>, id: string)
    ensures Removed(a + b, id) == Removed(a, id) + Removed(b, id)
  {
    FilterAppend(a, b, NotId(id));
  }

  /** Removing an id that no todo carries changes nothing. */
  lemma RemoveAbsent(ts: seq<Todo>, id: string)
    requires forall i :: 0 <= i < |ts| ==> ts[i].id != id
    ensures Removed(ts, id) == ts
  {
    FilterKeepsAll(ts, NotId(id));
  }

  /** Clearing completed todos keeps the pending ones in order, and a second clear changes nothing. */
  lemma ClearCompletedOrderAndIdempotent(a: seq<Todo>, b: seq<Todo>)
    ensures Pending(a + b) == Pending(a) + Pending(b)
    ensures Pending(Pending(a)) == Pending(a)
  {
    FilterAppend(a, b, IsPending);
    FilterIdempotent(a, IsPending);
  }
}
