/**
 * The `/api/todos` routes: the caller is identified by a bearer token, and
 * every handler reads and writes only that caller's records in the todo
 * collection.
 */
module TodoRoutes {
  import opened Wrappers
  import opened Text
  import opened Seqs
  import opened Days
  import opened ServerModels

  const BearerPrefix: string := "Bearer "

  /**
   * `getUserIdFromToken`: the subject of the token that follows the 7-character
   * `Bearer ` prefix of the authorization header, when the token verifies.
   */
  function CallerOf(header: Option<string>, verify: string -> Option<UserId>): (r: Option<UserId>)
    ensures r.Some? ==> header.Some? && |header.value| >= |BearerPrefix| && header.value[..|BearerPrefix|] == BearerPrefix
    ensures r.Some? ==> r == verify(header.value[|BearerPrefix|..])
    ensures header.Some? && |header.value| >= |BearerPrefix| && header.value[..|BearerPrefix|] == BearerPrefix ==> r == verify(header.value[|BearerPrefix|..])
  {
    if header.None? || |header.value| < |BearerPrefix| || header.value[..|BearerPrefix|] != BearerPrefix then None
    else verify(header.value[|BearerPrefix|..])
  }

  /** A header built from a token gives back exactly what that token verifies to. */
  lemma CallerOfBearer(token: string, verify: string -> Option<UserId>)
    ensures CallerOf(Some(BearerPrefix + token), verify) == verify(token)
  {
    assert (BearerPrefix + token)[..|BearerPrefix|] == BearerPrefix;
    assert (BearerPrefix + token)[|BearerPrefix|..] == token;
  }

  /** The JSON body of a response. */
  datatype Body =
    | TodoBody(todo: TodoRecord)
    | TodosBody(todos: seq<TodoRecord>)
    | SyncedBody(count: nat)
    | DeletedBody
    | ErrorBody(error: string)

  datatype Response = Response(status: nat, body: Body)

  const Unauthorized: Response := Response(401, ErrorBody("unauthorized"))
  const NotAnArray: Response := Response(400, ErrorBody("todos must be an array"))
  const TitleRequired: Response := Response(400, ErrorBody("title is required"))
  const TodoNotFound: Response := Response(404, ErrorBody("todo_not_found"))
  const InternalError: Response := Response(500, ErrorBody("internal_error"))

  function OwnedBy(owner: UserId): TodoRecord -> bool {
    (r: TodoRecord) => r.userId == owner
  }

  function NotOwnedBy(owner: UserId): TodoRecord -> bool {
    (r: TodoRecord) => r.userId != owner
  }

  /** The records of one user, in collection order. */
  function Owned(rs: seq<TodoRecord>, owner: UserId): seq<TodoRecord> {
    Filter(rs, OwnedBy(owner))
  }

  /** The records of every other user, in collection order. */
  function Others(rs: seq<TodoRecord>, owner: UserId): seq<TodoRecord> {
    Filter(rs, NotOwnedBy(owner))
  }

  function IdOf(r: TodoRecord): RecordId {
    r.id
  }

  /** The collection's own guarantees: distinct ids below the next added one, and titles that passed `required`. */
  ghost predicate WellFormed(rs: seq<TodoRecord>, nextId: RecordId) {
    && DistinctKeys(rs, IdOf)
    && (forall i :: 0 <= i < |rs| ==> rs[i].id < nextId && rs[i].title != "")
  }

  /** `completedAt` is present exactly when the todo is completed. */
  predicate RecordConsistent(r: TodoRecord) {
    r.completed <==> r.completedAt.Some?
  }

  /** Splitting a collection whose first part belongs to others and whose second part to `owner`. */
  lemma OwnerSplit(kept: seq<TodoRecord>, added: seq<TodoRecord>, owner: UserId)
    requires forall i :: 0 <= i < |kept| ==> kept[i].userId != owner
    requires forall i :: 0 <= i < |added| ==> added[i].userId == owner
    ensures Others(kept + added, owner) == kept
    ensures Owned(kept + added, owner) == added
  {
    FilterAppend(kept, added, NotOwnedBy(owner));
    FilterAppend(kept, added, OwnedBy(owner));
    FilterKeepsAll(kept, NotOwnedBy(owner));
    FilterDropsAll(added, NotOwnedBy(owner));
    FilterDropsAll(kept, OwnedBy(owner));
    FilterKeepsAll(added, OwnedBy(owner));
  }

  /** Appending one record of `owner` leaves everyone else's records as they were. */
  lemma AppendOwned(rs: seq<TodoRecord>, t: TodoRecord, owner: UserId)
    requires t.userId == owner
    ensures Others(rs + [t], owner) == Others(rs, owner)
    ensures Owned(rs + [t], owner) == Owned(rs, owner) + [t]
  {
    FilterAppend(rs, [t], NotOwnedBy(owner));
    FilterAppend(rs, [t], OwnedBy(owner));
  }

  /** Replacing or removing the record at `i`, which belongs to `owner`, leaves everyone else's records as they were. */
  lemma OthersAround(rs: seq<TodoRecord>, i: nat, mid: seq<TodoRecord>, owner: UserId)
    requires i < |rs| && rs[i].userId == owner
    requires forall k :: 0 <= k < |mid| ==> mid[k].userId == owner
    ensures Others(rs[..i] + mid + rs[i + 1..], owner) == Others(rs, owner)
  {
    var f := NotOwnedBy(owner);
    assert rs == rs[..i] + [rs[i]] + rs[i + 1..];
    FilterAppend(rs[..i] + [rs[i]], rs[i + 1..], f);
    FilterAppend(rs[..i], [rs[i]], f);
    FilterAppend(rs[..i] + mid, rs[i + 1..], f);
    FilterAppend(rs[..i], mid, f);
    FilterDropsAll(mid, f);
  }

  // ---------------------------------------------------------------- POST /sync

  /** One element of the `todos` array sent to `/sync`; a field the client left out is `None`. */
  datatype SyncItem = SyncItem(title: Option<string>, completed: Option<bool>, completedAt: Option<Time>, createdAt: Option<Time>)

  /** A timestamp the route treats as given: present and not 0 (0 is falsy). */
  function Given(t: Option<Time>): (r: Option<Time>)
    ensures r.Some? <==> t.Some? && t.value != 0
    ensures r.Some? ==> r == t
  {
    if t.Some? && t.value != 0 then t else None
  }

  /** The mapping of one sync item: `completed` defaults to false, a missing `createdAt` to now. */
  function SyncDraft(item: SyncItem, now: Instant): TodoDraft {
    TodoDraft(item.title, Some(item.completed.GetOr(false)), Given(item.completedAt),
              Some(if Given(item.createdAt).Some? then item.createdAt.value else now as Time))
  }

  /**
   * The records `insertMany` stores for the mapped items, with consecutive
   * added ids; `None` when one item fails validation, in which case none is stored.
   */
  function SyncedRecords(owner: UserId, items: seq<SyncItem>, firstId: RecordId, now: Instant): (r: Option<seq<TodoRecord>>)
    ensures r.Some? <==> forall i :: 0 <= i < |items| ==> RequiredText(items[i].title)
    ensures r.Some? ==> |r.value| == |items|
    ensures r.Some? ==> forall i :: 0 <= i < |items| ==>
      && r.value[i].id == firstId + i && r.value[i].userId == owner
      && r.value[i].title == items[i].title.value && r.value[i].title != ""
      && (r.value[i].completed <==> items[i].completed == Some(true))
      && r.value[i].completedAt == Given(items[i].completedAt)
      && r.value[i].createdAt == (if Given(items[i].createdAt).Some? then items[i].createdAt.value else now)
      && r.value[i].lastReminderSent.None?
  {
    if forall i :: 0 <= i < |items| ==> RequiredText(items[i].title) then
      Some(seq(|items|, i requires 0 <= i < |items| => CreateTodo(firstId + i, owner, SyncDraft(items[i], now), now).value))
    else None
  }

  /**
   * The collection and response after `/sync` with an array: the caller's
   * records are deleted first, then the mapped items inserted. Everyone
   * else's records are untouched; the caller ends up with exactly the synced
   * records, or with none at all when an item fails validation.
   */
  function SyncResult(rs: seq<TodoRecord>, owner: UserId, items: seq<SyncItem>, firstId: RecordId, now: Instant): (r: (seq<TodoRecord>, Response))
    ensures Others(r.0, owner) == Others(rs, owner)
    ensures SyncedRecords(owner, items, firstId, now).Some? ==>
      r.1 == Response(200, SyncedBody(|items|)) && Owned(r.0, owner) == SyncedRecords(owner, items, firstId, now).value
    ensures SyncedRecords(owner, items, firstId, now).None? ==> r.1 == InternalError && Owned(r.0, owner) == []
  {
    var kept := Others(rs, owner);
    FilterIdempotent(rs, NotOwnedBy(owner));
    assert forall i :: 0 <= i < |kept| ==> kept[i].userId != owner by {
      forall i | 0 <= i < |kept| ensures kept[i].userId != owner {
        assert kept[i] in kept;
      }
    }
    match SyncedRecords(owner, items, firstId, now)
    case Some(added) =>
      OwnerSplit(kept, added, owner);
      (kept + added, Response(200, SyncedBody(|items|)))
    case None =>
      OwnerSplit(kept, [], owner);
      assert kept + [] == kept;
      (kept, InternalError)
  }

  /** A failed sync has already deleted the caller's todos: one item without a title wipes them all. */
  lemma SyncFailureLosesTodos(rs: seq<TodoRecord>, owner: UserId, items: seq<SyncItem>, firstId: RecordId, now: Instant, i: nat)
    requires i < |items| && items[i].title.None?
    ensures SyncResult(rs, owner, items, firstId, now).1.status == 500
    ensures Owned(SyncResult(rs, owner, items, firstId, now).0, owner) == []
  {
  }

  /** Sync stores `completed` and `completedAt` as sent, so it can store a completed todo without a completion time. */
  lemma SyncMayStoreInconsistent(owner: UserId, firstId: RecordId, now: Instant)
    ensures var r := SyncedRecords(owner, [SyncItem(Some("a"), Some(true), None, None)], firstId, now);
      r.Some? && |r.value| == 1 && !RecordConsistent(r.value[0])
  {
  }

  // ---------------------------------------------------------------- GET /

  /** Newest first: `createdAt` never increases along the sequence. */
  predicate NewestFirst(rs: seq<TodoRecord>) {
    forall i, j :: 0 <= i < j < |rs| ==> rs[i].createdAt >= rs[j].createdAt
  }

  /** A record at least as new as every record of a newest-first sequence can go in front of it. */
  lemma {:induction false} ConsNewest(h: TodoRecord, rest: seq<TodoRecord>)
    requires NewestFirst(rest)
    requires forall x :: x in multiset(rest) ==> x.createdAt <= h.createdAt
    ensures NewestFirst([h] + rest)
  {
    var r := [h] + rest;
    forall i, j | 0 <= i < j < |r| ensures r[i].createdAt >= r[j].createdAt {
      assert r[j] == rest[j - 1] && rest[j - 1] in multiset(rest);
      if i > 0 {
        assert r[i] == rest[i - 1];
      }
    }
  }

  /** The first record of a newest-first sequence is at least as new as all of them, and the rest is newest first. */
  lemma HeadNewest(rs: seq<TodoRecord>)
    requires NewestFirst(rs) && rs != []
    ensures forall x :: x in multiset(rs) ==> x.createdAt <= rs[0].createdAt
    ensures NewestFirst(rs[1..])
    ensures multiset(rs) == multiset{rs[0]} + multiset(rs[1..])
  {
    forall x | x in multiset(rs) ensures x.createdAt <= rs[0].createdAt {
      var k :| 0 <= k < |rs| && rs[k] == x;
      assert k == 0 || rs[0].createdAt >= rs[k].createdAt;
    }
    forall i, j | 0 <= i < j < |rs[1..]| ensures rs[1..][i].createdAt >= rs[1..][j].createdAt {
      assert rs[1..][i] == rs[i + 1] && rs[1..][j] == rs[j + 1];
    }
    assert rs == [rs[0]] + rs[1..];
  }

  /** Insert one record into a newest-first sequence, after every record at least as new. */
  function InsertByNewest(t: TodoRecord, rs: seq<TodoRecord>): (r: seq<TodoRecord>)
    requires NewestFirst(rs)
    ensures NewestFirst(r)
    ensures multiset(r) == multiset(rs) + multiset{t}
  {
    if rs == [] then
      ConsNewest(t, rs);
      [t]
    else
      HeadNewest(rs);
      if rs[0].createdAt < t.createdAt then
        ConsNewest(t, rs);
        [t] + rs
      else
        var rest := InsertByNewest(t, rs[1..]);
        ConsNewest(rs[0], rest);
        [rs[0]] + rest
  }

  /** The sort of `.sort({ createdAt: -1 })`: the same records, newest first. */
  function SortByNewest(rs: seq<TodoRecord>): (r: seq<TodoRecord>)
    ensures NewestFirst(r)
    ensures multiset(r) == multiset(rs)
  {
    if rs == [] then []
    else
      assert rs == [rs[0]] + rs[1..];
      InsertByNewest(rs[0], SortByNewest(rs[1..]))
  }

  // ---------------------------------------------------------------- PUT /:id helpers

  /** The position of the record with this id that belongs to `owner` (`findOne({ _id, userId })`). */
  function FindOwned(rs: seq<TodoRecord>, owner: UserId, id: RecordId): (r: Option<nat>)
    ensures r.Some? ==> r.value < |rs| && rs[r.value].id == id && rs[r.value].userId == owner
    ensures r.None? ==> forall i :: 0 <= i < |rs| ==> !(rs[i].id == id && rs[i].userId == owner)
  {
    if rs == [] then None
    else if rs[0].id == id && rs[0].userId == owner then Some(0)
    else match FindOwned(rs[1..], owner, id)
      case None => None
      case Some(k) => Some(k + 1)
  }

  /**
   * An existing record after `PUT /:id`: `completed` changes only when the
   * body carries a boolean, and then `completedAt` is now exactly when it
   * becomes true; the title is replaced only by a non-blank one, trimmed.
   */
  function Patched(t: TodoRecord, completed: Option<bool>, title: Option<string>, now: Instant): (r: TodoRecord)
    ensures r.id == t.id && r.userId == t.userId && r.createdAt == t.createdAt && r.lastReminderSent == t.lastReminderSent
    ensures completed.None? ==> r.completed == t.completed && r.completedAt == t.completedAt
    ensures completed.Some? ==> r.completed == completed.value && r.completedAt == (if completed.value then Some(now as Time) else None)
    ensures title.Some? && !Blank(title.value) ==> r.title == Trim(title.value) && r.title != ""
    ensures title.None? || Blank(title.value) ==> r.title == t.title
  {
    var t1 := if completed.Some? then t.(completed := completed.value, completedAt := if completed.value then Some(now as Time) else None) else t;
    if title.Some? && Trim(title.value) != "" then t1.(title := Trim(title.value)) else t1
  }

  /** A patch keeps `completedAt` in step with `completed`, and a patch that sets `completed` puts it in step. */
  lemma PatchedConsistent(t: TodoRecord, completed: Option<bool>, title: Option<string>, now: Instant)
    requires RecordConsistent(t) || completed.Some?
    ensures RecordConsistent(Patched(t, completed, title, now))
  {
  }

  /** The record `PUT /:id` creates when the id is not one of the caller's: `completed || false`, `completedAt` iff completed. */
  function RecreateDraft(completed: Option<bool>, title: string, now: Instant): TodoDraft {
    TodoDraft(Some(Trim(title)), Some(completed == Some(true)),
              if completed == Some(true) then Some(now as Time) else None, Some(now as Time))
  }

  /**
   * The collection and response after `PUT /:id`. A record of the caller
   * with that id is patched in place. Otherwise: no title (or an empty one)
   * answers 404; a blank title trims to "" and fails validation (500); any
   * other title creates a added record. Everyone else's records are untouched.
   */
  function UpdateResult(rs: seq<TodoRecord>, owner: UserId, id: RecordId, completed: Option<bool>, title: Option<string>,
                        freshId: RecordId, now: Instant): (r: (seq<TodoRecord>, Response))
    ensures FindOwned(rs, owner, id).Some? ==>
      var i := FindOwned(rs, owner, id).value;
      r.0 == rs[i := Patched(rs[i], completed, title, now)] && r.1 == Response(200, TodoBody(r.0[i]))
    ensures FindOwned(rs, owner, id).None? && !RequiredText(title) ==> r == (rs, TodoNotFound)
    ensures FindOwned(rs, owner, id).None? && RequiredText(title) && Blank(title.value) ==> r == (rs, InternalError)
    ensures FindOwned(rs, owner, id).None? && RequiredText(title) && !Blank(title.value) ==>
      && r.1.status == 200 && r.1.body.TodoBody? && r.0 == rs + [r.1.body.todo]
      && r.1.body.todo.id == freshId && r.1.body.todo.userId == owner && r.1.body.todo.title == Trim(title.value)
      && (r.1.body.todo.completed <==> completed == Some(true)) && RecordConsistent(r.1.body.todo)
  {
    match FindOwned(rs, owner, id)
    case Some(i) =>
      var p := Patched(rs[i], completed, title, now);
      (rs[i := p], Response(200, TodoBody(p)))
    case None =>
      if !RequiredText(title) then (rs, TodoNotFound)
      else match CreateTodo(freshId, owner, RecreateDraft(completed, title.value, now), now)
        case None => (rs, InternalError)
        case Some(t) => (rs + [t], Response(200, TodoBody(t)))
  }

  /** Replacing one of `owner`'s records by another of theirs leaves everyone else's records as they were. */
  lemma PatchKeepsOthers(rs: seq<TodoRecord>, i: nat, p: TodoRecord, owner: UserId)
    requires i < |rs| && rs[i].userId == owner && p.userId == owner
    ensures Others(rs[i := p], owner) == Others(rs, owner)
  {
    assert rs[i := p] == rs[..i] + [p] + rs[i + 1..];
    OthersAround(rs, i, [p], owner);
  }

  /** `PUT /:id` never touches another user's records; a recreated record joins the caller's records at the end. */
  lemma UpdateKeepsOthers(rs: seq<TodoRecord>, owner: UserId, id: RecordId, completed: Option<bool>, title: Option<string>,
                          freshId: RecordId, now: Instant)
    ensures var r := UpdateResult(rs, owner, id, completed, title, freshId, now);
      && Others(r.0, owner) == Others(rs, owner)
      && (FindOwned(rs, owner, id).None? && r.1.status == 200 ==> Owned(r.0, owner) == Owned(rs, owner) + [r.1.body.todo])
  {
    match FindOwned(rs, owner, id)
    case Some(i) =>
      PatchKeepsOthers(rs, i, Patched(rs[i], completed, title, now), owner);
    case None =>
      if RequiredText(title) {
        var c := CreateTodo(freshId, owner, RecreateDraft(completed, title.value, now), now);
        if c.Some? {
          AppendOwned(rs, c.value, owner);
        }
      }
  }

  // ---------------------------------------------------------------- DELETE /:id

  /** The collection and response after `DELETE /:id`: the caller's record with that id is removed, or 404. */
  function DeleteResult(rs: seq<TodoRecord>, owner: UserId, id: RecordId): (r: (seq<TodoRecord>, Response))
    ensures Others(r.0, owner) == Others(rs, owner)
    ensures FindOwned(rs, owner, id).None? ==> r == (rs, TodoNotFound)
    ensures FindOwned(rs, owner, id).Some? ==>
      var i := FindOwned(rs, owner, id).value;
      r.0 == rs[..i] + rs[i + 1..] && r.1 == Response(200, DeletedBody)
  {
    match FindOwned(rs, owner, id)
    case None => (rs, TodoNotFound)
    case Some(i) =>
      OthersAround(rs, i, [], owner);
      assert rs[..i] + [] + rs[i + 1..] == rs[..i] + rs[i + 1..];
      (rs[..i] + rs[i + 1..], Response(200, DeletedBody))
  }

  /** With distinct ids, dropping position `i` drops exactly the records sharing its id. */
  lemma RemoveAtMember(rs: seq<TodoRecord>, i: nat, x: TodoRecord)
    requires DistinctKeys(rs, IdOf) && i < |rs|
    ensures x in rs[..i] + rs[i + 1..] <==> x in rs && x.id != rs[i].id
  {
    var r := rs[..i] + rs[i + 1..];
    if x in r {
      var k :| 0 <= k < |r| && r[k] == x;
      if k < i {
        assert rs[k] == x && IdOf(rs[k]) != IdOf(rs[i]);
      } else {
        assert rs[k + 1] == x && IdOf(rs[i]) != IdOf(rs[k + 1]);
      }
    }
    if x in rs && x.id != rs[i].id {
      var j :| 0 <= j < |rs| && rs[j] == x;
      if j < i {
        assert r[j] == x;
      } else {
        assert r[j - 1] == x;
      }
    }
  }

  /** With distinct ids, an id occurs at one position only. */
  lemma SameIdSameIndex(rs: seq<TodoRecord>, i: nat, j: nat)
    requires DistinctKeys(rs, IdOf) && i < |rs| && j < |rs|
    ensures rs[i].id == rs[j].id ==> i == j
  {
    if i < j {
      assert IdOf(rs[i]) != IdOf(rs[j]);
    } else if j < i {
      assert IdOf(rs[j]) != IdOf(rs[i]);
    }
  }

  /** With distinct ids, delete removes exactly the caller's record with that id and keeps every other record. */
  lemma DeleteRemovesExactly(rs: seq<TodoRecord>, owner: UserId, id: RecordId)
    requires DistinctKeys(rs, IdOf)
    ensures forall x :: x in DeleteResult(rs, owner, id).0 <==> x in rs && !(x.id == id && x.userId == owner)
  {
    match FindOwned(rs, owner, id)
    case None =>
    case Some(i) =>
      forall x ensures x in rs[..i] + rs[i + 1..] <==> x in rs && !(x.id == id && x.userId == owner) {
        RemoveAtMember(rs, i, x);
        if x in rs && x.id == id {
          var j :| 0 <= j < |rs| && rs[j] == x;
          SameIdSameIndex(rs, i, j);
        }
      }
  }

  /** Patching a record in place, keeping its id and a non-empty title, keeps the collection well formed. */
  lemma ReplaceWellFormed(rs: seq<TodoRecord>, nextId: RecordId, i: nat, p: TodoRecord)
    requires WellFormed(rs, nextId) && i < |rs| && p.id == rs[i].id && p.title != ""
    ensures WellFormed(rs[i := p], nextId)
  {
    var r := rs[i := p];
    forall a, b | 0 <= a < b < |r| ensures IdOf(r[a]) != IdOf(r[b]) {
      assert IdOf(r[a]) == IdOf(rs[a]) && IdOf(r[b]) == IdOf(rs[b]);
    }
  }

  /** Appending records with fresh consecutive ids and non-empty titles keeps the collection well formed. */
  lemma AppendWellFormed(rs: seq<TodoRecord>, nextId: RecordId, added: seq<TodoRecord>)
    requires WellFormed(rs, nextId)
    requires forall k :: 0 <= k < |added| ==> added[k].id == nextId + k && added[k].title != ""
    ensures WellFormed(rs + added, nextId + |added|)
  {
    var all := rs + added;
    forall a, b | 0 <= a < b < |all| ensures IdOf(all[a]) != IdOf(all[b]) {
      if b < |rs| {
        assert all[a] == rs[a] && all[b] == rs[b];
      } else if a < |rs| {
        assert all[a] == rs[a] && all[b] == added[b - |rs|];
      } else {
        assert all[a] == added[a - |rs|] && all[b] == added[b - |rs|];
      }
    }
    forall k | 0 <= k < |all| ensures all[k].id < nextId + |added| && all[k].title != "" {
      if k < |rs| { assert all[k] == rs[k]; } else { assert all[k] == added[k - |rs|]; }
    }
  }

  /** Removing one record keeps the collection well formed. */
  lemma RemoveWellFormed(rs: seq<TodoRecord>, nextId: RecordId, i: nat)
    requires WellFormed(rs, nextId) && i < |rs|
    ensures WellFormed(rs[..i] + rs[i + 1..], nextId)
  {
    var r := rs[..i] + rs[i + 1..];
    forall a, b | 0 <= a < b < |r| ensures IdOf(r[a]) != IdOf(r[b]) {
      var a' := if a < i then a else a + 1;
      var b' := if b < i then b else b + 1;
      assert r[a] == rs[a'] && r[b] == rs[b'] && a' < b';
    }
    forall k | 0 <= k < |r| ensures r[k].id < nextId && r[k].title != "" {
      var k' := if k < i then k else k + 1;
      assert r[k] == rs[k'];
    }
  }

  /** Keeping only the records of other users keeps the collection well formed. */
  lemma OthersWellFormed(rs: seq<TodoRecord>, nextId: RecordId, owner: UserId)
    requires WellFormed(rs, nextId)
    ensures WellFormed(Others(rs, owner), nextId)
  {
    FilterKeepsDistinct(rs, NotOwnedBy(owner), IdOf);
    var kept := Others(rs, owner);
    forall k | 0 <= k < |kept| ensures kept[k].id < nextId && kept[k].title != "" {
      assert kept[k] in kept;
    }
  }

  /** The todo collection the routes share. */
  class TodoStore {
    var records: seq<TodoRecord>
    var nextId: RecordId

    ghost predicate Valid()
      reads this
    {
      WellFormed(records, nextId)
    }

    constructor ()
      ensures Valid() && records == []
    {
      records, nextId := [], 0;
    }

    /** `POST /sync`: 401 without a caller, 400 when `todos` is not an array, otherwise the wholesale replace. */
    method Sync(caller: Option<UserId>, todos: Option<seq<SyncItem>>, now: Instant) returns (resp: Response)
      requires Valid()
      modifies this
      ensures Valid()
      ensures caller.None? ==> resp == Unauthorized && records == old(records)
      ensures caller.Some? && todos.None? ==> resp == NotAnArray && records == old(records)
      ensures caller.Some? && todos.Some? ==>
        (records, resp) == SyncResult(old(records), caller.value, todos.value, old(nextId), now)
    {
      if caller.None? {
        return Unauthorized;
      }
      if todos.None? {
        return NotAnArray;
      }
      var owner, items := caller.value, todos.value;
      var kept := Others(records, owner);
      OthersWellFormed(records, nextId, owner);
      var added := SyncedRecords(owner, items, nextId, now);
      if added.None? {
        records := kept;
        resp := InternalError;
      } else {
        AppendWellFormed(kept, nextId, added.value);
        records := kept + added.value;
        nextId := nextId + |items|;
        resp := Response(200, SyncedBody(|items|));
      }
    }

    /** `GET /`: the caller's records, newest first. */
    method List(caller: Option<UserId>) returns (resp: Response)
      ensures caller.None? ==> resp == Unauthorized
      ensures caller.Some? ==> resp.status == 200 && resp.body.TodosBody?
      ensures caller.Some? ==> NewestFirst(resp.body.todos) && multiset(resp.body.todos) == multiset(Owned(records, caller.value))
      ensures caller.Some? ==> forall t :: t in resp.body.todos <==> t in records && t.userId == caller.value
    {
      if caller.None? {
        return Unauthorized;
      }
      var owned := Owned(records, caller.value);
      assert forall t :: t in owned <==> t in records && OwnedBy(caller.value)(t);
      var sorted := SortByNewest(owned);
      assert forall t :: t in sorted <==> t in multiset(sorted);
      assert forall t :: t in owned <==> t in multiset(owned);
      resp := Response(200, TodosBody(sorted));
    }

    /** `POST /`: 400 for a missing or blank title, otherwise one new record of the caller with the trimmed title. */
    method Create(caller: Option<UserId>, title: Option<string>, now: Instant) returns (resp: Response)
      requires Valid()
      modifies this
      ensures Valid()
      ensures caller.None? ==> resp == Unauthorized && records == old(records)
      ensures caller.Some? && (title.None? || Blank(title.value)) ==> resp == TitleRequired && records == old(records)
      ensures caller.Some? && title.Some? && !Blank(title.value) ==>
        && resp.status == 201 && resp.body.TodoBody?
        && resp.body.todo == TodoRecord(old(nextId), caller.value, Trim(title.value), false, None, now, None)
        && records == old(records) + [resp.body.todo]
        && Owned(records, caller.value) == Owned(old(records), caller.value) + [resp.body.todo]
        && Others(records, caller.value) == Others(old(records), caller.value)
    {
      if caller.None? {
        return Unauthorized;
      }
      if title.None? || Trim(title.value) == "" {
        return TitleRequired;
      }
      var created := CreateTodo(nextId, caller.value, TodoDraft(Some(Trim(title.value)), Some(false), None, Some(now as Time)), now);
      var t := created.value;
      AppendOwned(records, t, caller.value);
      Append(t);
      resp := Response(201, TodoBody(t));
    }

    /** `findOneAndUpdate` on a stored record: the record at `i` replaced by `p`, which keeps its id. */
    method Replace(i: nat, p: TodoRecord)
      requires Valid() && i < |records| && p.id == records[i].id && p.title != ""
      modifies this
      ensures Valid() && records == old(records)[i := p] && nextId == old(nextId)
    {
      ReplaceWellFormed(records, nextId, i, p);
      records := records[i := p];
    }

    /** `create` of a validated record: it takes the next id and goes at the end of the collection. */
    method Append(t: TodoRecord)
      requires Valid() && t.id == nextId && t.title != ""
      modifies this
      ensures Valid() && records == old(records) + [t] && nextId == old(nextId) + 1
    {
      AppendWellFormed(records, nextId, [t]);
      records := records + [t];
      nextId := nextId + 1;
    }

    /** `PUT /:id`: patch the caller's record, or create it when missing. */
    method Update(caller: Option<UserId>, id: RecordId, completed: Option<bool>, title: Option<string>, now: Instant) returns (resp: Response)
      requires Valid()
      modifies this
      ensures Valid()
      ensures caller.None? ==> resp == Unauthorized && records == old(records)
      ensures caller.Some? ==> (records, resp) == UpdateResult(old(records), caller.value, id, completed, title, old(nextId), now)
    {
      if caller.None? {
        return Unauthorized;
      }
      var owner := caller.value;
      var found := FindOwned(records, owner, id);
      if found.Some? {
        var i := found.value;
        var p := Patched(records[i], completed, title, now);
        Replace(i, p);
        resp := Response(200, TodoBody(p));
      } else if !RequiredText(title) {
        resp := TodoNotFound;
      } else {
        var created := CreateTodo(nextId, owner, RecreateDraft(completed, title.value, now), now);
        if created.None? {
          resp := InternalError;
        } else {
          Append(created.value);
          resp := Response(200, TodoBody(created.value));
        }
      }
    }

    /** `DELETE /:id`: remove the caller's record with that id, or answer 404. */
    method Delete(caller: Option<UserId>, id: RecordId) returns (resp: Response)
      requires Valid()
      modifies this
      ensures Valid()
      ensures caller.None? ==> resp == Unauthorized && records == old(records)
      ensures caller.Some? ==> (records, resp) == DeleteResult(old(records), caller.value, id)
      ensures caller.Some? ==> forall x :: x in records <==> x in old(records) && !(x.id == id && x.userId == caller.value)
    {
      if caller.None? {
        return Unauthorized;
      }
      DeleteRemovesExactly(records, caller.value, id);
      var found := FindOwned(records, caller.value, id);
      if found.None? {
        return TodoNotFound;
      }
      var i := found.value;
      RemoveWellFormed(records, nextId, i);
      records := records[..i] + records[i + 1..];
      resp := Response(200, DeletedBody);
    }
  }
}
