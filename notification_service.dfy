/**
 * The body of the scheduled reminder job: for every user in turn, find the
 * pending todos, skip the user when there are none, when one of them was
 * already reminded today, or when the user has no email; otherwise send the
 * reminder and, only when it went out, stamp every pending todo of that user.
 */
module NotificationService {
  import opened Wrappers
  import opened Seqs
  import opened Days
  import opened ServerModels
  import opened EmailService
  import TodoRoutes

  /** Local midnight of the day `now` falls on. */
  function StartOfDay(now: Instant): (t: Time)
    ensures t <= now < t + MsPerDay
    ensures DayOf(t) == DayOf(now)
  {
    DayOf(now) * MsPerDay
  }

  function PendingFor(owner: UserId): TodoRecord -> bool {
    (r: TodoRecord) => r.userId == owner && !r.completed
  }

  /** `Todo.find({ userId, completed: false })`: the user's pending todos, in collection order. */
  function PendingOf(rs: seq<TodoRecord>, owner: UserId): seq<TodoRecord> {
    Filter(rs, PendingFor(owner))
  }

  /** Some pending todo was reminded at or after local midnight. */
  predicate RemindedToday(pending: seq<TodoRecord>, startOfDay: Time) {
    exists i :: 0 <= i < |pending| && pending[i].lastReminderSent.Some? && pending[i].lastReminderSent.value >= startOfDay
  }

  /** The three conditions before a reminder is attempted. */
  predicate ShouldRemind(user: UserRecord, pending: seq<TodoRecord>, startOfDay: Time) {
    |pending| > 0 && !RemindedToday(pending, startOfDay) && user.email != ""
  }

  /** The titles handed to the mail, in query order. */
  function Titles(pending: seq<TodoRecord>): (r: seq<string>)
    ensures |r| == |pending| && forall i :: 0 <= i < |pending| ==> r[i] == pending[i].title
  {
    seq(|pending|, i requires 0 <= i < |pending| => pending[i].title)
  }

  /** Whether the run reminds `user`, judged on the collection as it stands. */
  predicate Reminds(rs: seq<TodoRecord>, user: UserRecord, config: SmtpConfig, transport: Mail -> bool, now: Instant) {
    var pending := PendingOf(rs, user.id);
    ShouldRemind(user, pending, StartOfDay(now))
    && SendReminder(config, transport, user.email, user.name.GetOr(""), Titles(pending))
  }

  /** The record after `updateMany` stamps it, when it is a pending todo of one of `owners`. */
  function StampIf(r: TodoRecord, owners: set<UserId>, now: Instant): TodoRecord {
    if r.userId in owners && !r.completed then r.(lastReminderSent := Some(now as Time)) else r
  }

  /** Every pending todo of the users in `owners` stamped with `now`; every other record as it was. */
  function StampOwners(rs: seq<TodoRecord>, owners: set<UserId>, now: Instant): (r: seq<TodoRecord>)
    ensures |r| == |rs|
    ensures forall i :: 0 <= i < |rs| ==> r[i] == StampIf(rs[i], owners, now)
  {
    seq(|rs|, i requires 0 <= i < |rs| => StampIf(rs[i], owners, now))
  }

  /** One user's turn: the collection after it, and whether the reminder went out. */
  function RemindUser(rs: seq<TodoRecord>, user: UserRecord, config: SmtpConfig, transport: Mail -> bool, now: Instant): (r: (seq<TodoRecord>, bool))
    ensures r.1 == Reminds(rs, user, config, transport, now)
    ensures r.1 ==> r.0 == StampOwners(rs, {user.id}, now)
    ensures !r.1 ==> r.0 == rs
  {
    if Reminds(rs, user, config, transport, now) then (StampOwners(rs, {user.id}, now), true) else (rs, false)
  }

  function Ids(users: seq<UserRecord>): (r: seq<UserId>)
    ensures |r| == |users| && forall k :: 0 <= k < |users| ==> r[k] == users[k].id
  {
    seq(|users|, k requires 0 <= k < |users| => users[k].id)
  }

  /** The run over `users` in order: the final collection and the ids reminded, in order. */
  function Scan(rs: seq<TodoRecord>, users: seq<UserRecord>, config: SmtpConfig, transport: Mail -> bool, now: Instant): (r: (seq<TodoRecord>, seq<UserId>))
    ensures |r.0| == |rs|
    decreases |users|
  {
    if users == [] then (rs, [])
    else
      var before := Scan(rs, users[..|users| - 1], config, transport, now);
      var step := RemindUser(before.0, users[|users| - 1], config, transport, now);
      (step.0, before.1 + if step.1 then [users[|users| - 1].id] else [])
  }

  /** The users a run gets through: all of them, or those before the one whose query throws. */
  function Reached(users: seq<UserRecord>, failAt: Option<nat>): (r: seq<UserRecord>)
    ensures failAt.None? ==> r == users
    ensures failAt.Some? ==> r == users[..if failAt.value < |users| then failAt.value else |users|]
  {
    if failAt.Some? && failAt.value < |users| then users[..failAt.value] else users
  }

  predicate DistinctUsers(users: seq<UserRecord>) {
    forall j, k :: 0 <= j < k < |users| ==> users[j].id != users[k].id
  }

  /** Stamping only touches pending todos of the stamped users, and keeps who owns what and what is pending. */
  lemma StampKeepsPendingOfOthers(rs: seq<TodoRecord>, owners: set<UserId>, now: Instant, other: UserId)
    requires other !in owners
    ensures PendingOf(StampOwners(rs, owners, now), other) == PendingOf(rs, other)
  {
    FilterAgree(StampOwners(rs, owners, now), rs, PendingFor(other));
  }

  /** Whether a user is reminded does not depend on the stamping of other users. */
  lemma RemindsUnaffected(rs: seq<TodoRecord>, owners: set<UserId>, u: UserRecord, config: SmtpConfig, transport: Mail -> bool, now: Instant)
    requires u.id !in owners
    ensures Reminds(StampOwners(rs, owners, now), u, config, transport, now) == Reminds(rs, u, config, transport, now)
  {
    StampKeepsPendingOfOthers(rs, owners, now, u.id);
  }

  /** Stamping one more user on top of a stamping is the stamping of both. */
  lemma StampTwice(rs: seq<TodoRecord>, owners: set<UserId>, u: UserId, now: Instant)
    ensures StampOwners(StampOwners(rs, owners, now), {u}, now) == StampOwners(rs, owners + {u}, now)
  {
  }

  /** The ids of a list, as a set. */
  function AsSet(ids: seq<UserId>): set<UserId> {
    set x | x in ids
  }

  /** Stamping the next user, when reminded, on top of the stamping of those before. */
  lemma StampExtend(rs: seq<TodoRecord>, chosen: seq<UserId>, u: UserId, sent: bool, now: Instant)
    ensures var more := chosen + if sent then [u] else [];
      (if sent then StampOwners(StampOwners(rs, AsSet(chosen), now), {u}, now) else StampOwners(rs, AsSet(chosen), now))
      == StampOwners(rs, AsSet(more), now)
  {
    var more := chosen + if sent then [u] else [];
    if sent {
      StampTwice(rs, AsSet(chosen), u, now);
      assert AsSet(more) == AsSet(chosen) + {u};
    } else {
      assert more == chosen;
    }
  }

  /** The outcome of a run as judged on the collection before it: who is reminded, and what is stamped. */
  predicate Characterised(rs: seq<TodoRecord>, users: seq<UserRecord>, r: (seq<TodoRecord>, seq<UserId>),
                          config: SmtpConfig, transport: Mail -> bool, now: Instant) {
    && (forall k :: 0 <= k < |users| ==> (users[k].id in r.1 <==> Reminds(rs, users[k], config, transport, now)))
    && (forall x :: x in r.1 ==> x in Ids(users))
    && r.0 == StampOwners(rs, AsSet(r.1), now)
  }

  /** Extending a list of chosen ids by one more user, chosen or not, keeps "chosen iff `p`" for every user. */
  lemma ExtendChosen(prefix: seq<UserRecord>, last: UserRecord, chosen: seq<UserId>, p: UserRecord -> bool)
    requires forall k :: 0 <= k < |prefix| ==> (prefix[k].id in chosen <==> p(prefix[k]))
    requires forall x :: x in chosen ==> x in Ids(prefix)
    requires forall k :: 0 <= k < |prefix| ==> prefix[k].id != last.id
    ensures var users, more := prefix + [last], chosen + if p(last) then [last.id] else [];
      && (forall k :: 0 <= k < |users| ==> (users[k].id in more <==> p(users[k])))
      && (forall x :: x in more ==> x in Ids(users))
      && last.id !in chosen
  {
    var users, more := prefix + [last], chosen + if p(last) then [last.id] else [];
    forall k | 0 <= k < |users| ensures users[k].id in more <==> p(users[k]) {
      if k < |prefix| {
        assert users[k] == prefix[k];
      }
    }
    forall x | x in more ensures x in Ids(users) {
      if x in chosen {
        var k :| 0 <= k < |prefix| && Ids(prefix)[k] == x;
        assert Ids(users)[k] == x;
      } else {
        assert Ids(users)[|prefix|] == x;
      }
    }
  }

  /** One more user, distinct from those before, extends a characterised run. */
  lemma CharacterisedStep(rs: seq<TodoRecord>, prefix: seq<UserRecord>, last: UserRecord, before: (seq<TodoRecord>, seq<UserId>),
                          config: SmtpConfig, transport: Mail -> bool, now: Instant)
    requires Characterised(rs, prefix, before, config, transport, now)
    requires forall k :: 0 <= k < |prefix| ==> prefix[k].id != last.id
    ensures var step := RemindUser(before.0, last, config, transport, now);
      Characterised(rs, prefix + [last], (step.0, before.1 + if step.1 then [last.id] else []), config, transport, now)
  {
    var p := (u: UserRecord) => Reminds(rs, u, config, transport, now);
    ExtendChosen(prefix, last, before.1, p);
    RemindsUnaffected(rs, AsSet(before.1), last, config, transport, now);
    StampExtend(rs, before.1, last.id, p(last), now);
  }

  /**
   * What a whole run does, when the users are distinct: exactly the users
   * whose pending todos qualify and whose mail goes out are reminded, judged
   * on the collection as it was before the run; and exactly their pending
   * todos are stamped, every other record being left as it was.
   */
  lemma {:induction false} ScanCharacterised(rs: seq<TodoRecord>, users: seq<UserRecord>, config: SmtpConfig, transport: Mail -> bool, now: Instant)
    requires DistinctUsers(users)
    ensures Characterised(rs, users, Scan(rs, users, config, transport, now), config, transport, now)
  {
    if users == [] {
      assert StampOwners(rs, {}, now) == rs;
    } else {
      var n := |users|;
      var prefix, last := users[..n - 1], users[n - 1];
      assert users == prefix + [last];
      ScanCharacterised(rs, prefix, config, transport, now);
      CharacterisedStep(rs, prefix, last, Scan(rs, prefix, config, transport, now), config, transport, now);
    }
  }

  /** One user's share of a characterised run. */
  lemma ChosenAt(rs: seq<TodoRecord>, users: seq<UserRecord>, config: SmtpConfig, transport: Mail -> bool, now: Instant, k: nat)
    requires DistinctUsers(users) && k < |users|
    ensures var r := Scan(rs, users, config, transport, now);
      && (users[k].id in r.1 <==> Reminds(rs, users[k], config, transport, now))
      && r.0 == StampOwners(rs, AsSet(r.1), now)
  {
    ScanCharacterised(rs, users, config, transport, now);
  }

  /**
   * Deduplication: a user reminded by one run is not reminded again by a
   * second run later the same day, when nothing else changed in between.
   */
  lemma SecondRunSameDay(rs: seq<TodoRecord>, users: seq<UserRecord>, config: SmtpConfig, transport: Mail -> bool, now: Instant, later: Instant, k: nat)
    requires DistinctUsers(users) && k < |users|
    requires now <= later && DayOf(later) == DayOf(now)
    requires users[k].id in Scan(rs, users, config, transport, now).1
    ensures users[k].id !in Scan(Scan(rs, users, config, transport, now).0, users, config, transport, later).1
  {
    var u := users[k];
    var first := Scan(rs, users, config, transport, now);
    ChosenAt(rs, users, config, transport, now, k);
    ChosenAt(first.0, users, config, transport, later, k);
    NoSecondReminder(rs, AsSet(first.1), u, config, transport, now, later);
  }

  /** A user among the stamped owners, who had pending todos, is not reminded again that day. */
  lemma NoSecondReminder(rs: seq<TodoRecord>, owners: set<UserId>, u: UserRecord, config: SmtpConfig, transport: Mail -> bool,
                         now: Instant, later: Instant)
    requires u.id in owners && PendingOf(rs, u.id) != []
    requires now <= later && DayOf(later) == DayOf(now)
    ensures !Reminds(StampOwners(rs, owners, now), u, config, transport, later)
  {
    StampedStaysReminded(rs, owners, u.id, now, later);
  }

  /** After stamping a user who had pending todos, that user counts as reminded for the rest of the day. */
  lemma StampedStaysReminded(rs: seq<TodoRecord>, owners: set<UserId>, u: UserId, now: Instant, later: Instant)
    requires u in owners && PendingOf(rs, u) != []
    requires now <= later && DayOf(later) == DayOf(now)
    ensures PendingOf(StampOwners(rs, owners, now), u) != []
    ensures RemindedToday(PendingOf(StampOwners(rs, owners, now), u), StartOfDay(later))
  {
    var pending := PendingOf(rs, u);
    var stamped := StampOwners(rs, owners, now);
    var again := PendingOf(stamped, u);
    assert pending[0] in pending;
    var j :| 0 <= j < |rs| && rs[j] == pending[0];
    assert stamped[j] in again;
    var m :| 0 <= m < |again| && again[m] == stamped[j];
    assert again[m].lastReminderSent == Some(now as Time);
  }

  /** A user whose send fails keeps every todo unstamped, so the next run tries again. */
  lemma FailedSendStampsNothing(rs: seq<TodoRecord>, users: seq<UserRecord>, config: SmtpConfig, transport: Mail -> bool, now: Instant, k: nat)
    requires DistinctUsers(users) && k < |users|
    requires !SendReminder(config, transport, users[k].email, users[k].name.GetOr(""), Titles(PendingOf(rs, users[k].id)))
    ensures forall i :: 0 <= i < |rs| && rs[i].userId == users[k].id ==> Scan(rs, users, config, transport, now).0[i] == rs[i]
  {
    ScanCharacterised(rs, users, config, transport, now);
  }

  /** No reminder without a pending todo, and none to a user without an email. */
  lemma NoReminderWithoutPendingOrEmail(rs: seq<TodoRecord>, users: seq<UserRecord>, config: SmtpConfig, transport: Mail -> bool, now: Instant, k: nat)
    requires DistinctUsers(users) && k < |users|
    requires PendingOf(rs, users[k].id) == [] || users[k].email == ""
    ensures users[k].id !in Scan(rs, users, config, transport, now).1
  {
    ScanCharacterised(rs, users, config, transport, now);
  }

  /** The run over one more user is the run so far followed by that user's turn. */
  lemma ScanSnoc(rs: seq<TodoRecord>, prefix: seq<UserRecord>, user: UserRecord, config: SmtpConfig, transport: Mail -> bool, now: Instant)
    ensures var before := Scan(rs, prefix, config, transport, now);
            var step := RemindUser(before.0, user, config, transport, now);
            Scan(rs, prefix + [user], config, transport, now) == (step.0, if step.1 then before.1 + [user.id] else before.1)
  {
    assert (prefix + [user])[..|prefix|] == prefix;
    var before := Scan(rs, prefix, config, transport, now);
    assert before.1 + [] == before.1;
  }

  /** One user's turn of the callback: query the pending todos, check, send, and stamp after a successful send. */
  method RemindOne(store: TodoRoutes.TodoStore, user: UserRecord, config: SmtpConfig, transport: Mail -> bool, now: Instant)
    returns (sent: bool)
    requires store.Valid()
    modifies store
    ensures store.Valid() && store.nextId == old(store.nextId)
    ensures (store.records, sent) == RemindUser(old(store.records), user, config, transport, now)
  {
    sent := false;
    var pending := PendingOf(store.records, user.id);
    if |pending| > 0 {
      var startOfDay := StartOfDay(now);
      if !RemindedToday(pending, startOfDay) && user.email != "" {
        sent := SendReminder(config, transport, user.email, user.name.GetOr(""), Titles(pending));
        if sent {
          StampKeepsWellFormed(store.records, store.nextId, {user.id}, now);
          store.records := StampOwners(store.records, {user.id}, now);
        }
      }
    }
  }

  /**
   * The scheduled callback over the shared todo collection. `failAt` is the
   * position of the user whose database query throws, if any: the single
   * try/catch around the loop then ends the whole run there.
   */
  method CheckReminders(store: TodoRoutes.TodoStore, users: seq<UserRecord>, config: SmtpConfig, transport: Mail -> bool,
                        now: Instant, failAt: Option<nat>) returns (reminded: seq<UserId>)
    requires store.Valid()
    modifies store
    ensures store.Valid() && store.nextId == old(store.nextId)
    ensures (store.records, reminded) == Scan(old(store.records), Reached(users, failAt), config, transport, now)
  {
    var scan := Reached(users, failAt);
    ghost var start := store.records;
    reminded := [];
    var i := 0;
    while i < |scan|
      invariant 0 <= i <= |scan|
      invariant store.Valid() && store.nextId == old(store.nextId)
      invariant store.records == Scan(start, scan[..i], config, transport, now).0
      invariant reminded == Scan(start, scan[..i], config, transport, now).1
    {
      var user := scan[i];
      assert scan[..i + 1] == scan[..i] + [user];
      ScanSnoc(start, scan[..i], user, config, transport, now);
      var sent := RemindOne(store, user, config, transport, now);
      if sent {
        reminded := reminded + [user.id];
      }
      i := i + 1;
    }
    assert scan[..|scan|] == scan;
  }

  /** Stamping keeps ids and titles, so the collection stays well formed. */
  lemma StampKeepsWellFormed(rs: seq<TodoRecord>, nextId: RecordId, owners: set<UserId>, now: Instant)
    requires TodoRoutes.WellFormed(rs, nextId)
    ensures TodoRoutes.WellFormed(StampOwners(rs, owners, now), nextId)
  {
    var r := StampOwners(rs, owners, now);
    forall a, b | 0 <= a < b < |r| ensures TodoRoutes.IdOf(r[a]) != TodoRoutes.IdOf(r[b]) {
      assert TodoRoutes.IdOf(r[a]) == TodoRoutes.IdOf(rs[a]) && TodoRoutes.IdOf(r[b]) == TodoRoutes.IdOf(rs[b]);
    }
  }
}
