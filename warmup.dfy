/** The warmup dispatcher: every scheduler tick selects, for stages 1, 2 and 3
    in turn, the users due for that stage's reminder, sends it to each of them
    one after the other, and writes the outcome of each send back to the user
    table. The messenger is replaced by an oracle `send` that gives the outcome
    of sending stage `stage`'s reminder to user `id`. */
module Warmup {
  import opened Users

  /** What the messenger reports for one send. */
  datatype SendOutcome =
    | Delivered      // sendMessage resolved
    | Forbidden403   // rejected with HTTP status 403: the user blocked the bot
    | OtherError     // any other rejection

  /** The configured thresholds, in hours since registration, of stages 1, 2 and 3. */
  datatype Delays = Delays(first: nat, second: nat, third: nat)

  /** The lifecycle transition one send outcome causes on a row. */
  function Transition(u: UserRecord, o: SendOutcome, stage: int, now: int): (v: UserRecord)
    ensures v.warmupStage == (if o.Delivered? then stage else u.warmupStage)
    ensures v.lastWarmupAt == (if o.Delivered? then Some(now) else u.lastWarmupAt)
    ensures v.isBlocked == (u.isBlocked || o.Forbidden403?)
    ensures v.(warmupStage := u.warmupStage, lastWarmupAt := u.lastWarmupAt, isBlocked := u.isBlocked) == u
  {
    match o
    case Delivered => u.(warmupStage := stage, lastWarmupAt := Some(now))
    case Forbidden403 => u.(isBlocked := true)
    case OtherError => u
  }

  /** sendWarmupMessage's write to the table: updateWarmupStage on delivery,
      markAsBlocked on a 403, nothing otherwise. */
  function AfterSend(t: Table, id: UserId, stage: int, o: SendOutcome, now: int): (r: Table)
    ensures TableValid(t) ==> TableValid(r)
    ensures r.rows == t.rows && r.users.Keys == t.users.Keys
    ensures forall other :: other in t.users && other != id ==> r.users[other] == t.users[other]
    ensures id in t.users ==> r.users[id] == Transition(t.users[id], o, stage, now)
  {
    match o
    case Delivered => WithStage(t, id, stage, now)
    case Forbidden403 => WithBlock(t, id)
    case OtherError => t
  }

  /** The table after sending stage `stage` to each of `ids` in order. */
  function AfterSends(t: Table, ids: seq<UserId>, stage: int, now: int, send: (int, UserId) -> SendOutcome)
    : (r: Table)
    ensures TableValid(t) ==> TableValid(r)
    ensures r.rows == t.rows && r.users.Keys == t.users.Keys
    decreases |ids|
  {
    if ids == [] then t
    else
      var last := ids[|ids| - 1];
      AfterSend(AfterSends(t, ids[..|ids| - 1], stage, now, send), last, stage, send(stage, last), now)
  }

  /** The number of sends among `ids` that the messenger delivers. */
  function CountDelivered(ids: seq<UserId>, stage: int, send: (int, UserId) -> SendOutcome): (n: int)
    ensures 0 <= n <= |ids|
    ensures n == |ids| <==> forall k :: 0 <= k < |ids| ==> send(stage, ids[k]).Delivered?
    decreases |ids|
  {
    if ids == [] then 0
    else
      var prefix := ids[..|ids| - 1];
      assert forall k :: 0 <= k < |prefix| ==> prefix[k] == ids[k];
      CountDelivered(prefix, stage, send) + (if send(stage, ids[|ids| - 1]).Delivered? then 1 else 0)
  }

  function IdsOf(us: seq<UserRecord>): seq<UserId>
  {
    seq(|us|, k requires 0 <= k < |us| => us[k].telegramId)
  }

  /** Sending to distinct rows of the table changes exactly those rows, each by
      its own outcome's transition. */
  lemma {:induction false} AfterSendsEffect(
    t: Table, ids: seq<UserId>, stage: int, now: int, send: (int, UserId) -> SendOutcome)
    requires TableValid(t)
    requires Distinct(ids)
    requires forall id :: id in ids ==> id in t.users
    ensures var r := AfterSends(t, ids, stage, now, send);
      forall id :: id in t.users ==>
        r.users[id] == if id in ids then Transition(t.users[id], send(stage, id), stage, now) else t.users[id]
    decreases |ids|
  {
    if ids != [] {
      var prefix := ids[..|ids| - 1];
      var last := ids[|ids| - 1];
      assert forall id :: id in prefix ==> id in ids;
      assert Distinct(prefix);
      assert last !in prefix by {
        forall k | 0 <= k < |prefix| ensures prefix[k] != last { assert ids[k] != ids[|ids| - 1]; }
      }
      assert forall id :: id in ids <==> id in prefix || id == last;
      AfterSendsEffect(t, prefix, stage, now, send);
    }
  }

  /** The table after one processWarmupStage(stage, hoursAgo) pass: the users at
      stage - 1 that are due are sent the reminder, in rowid order. */
  function StagePass(t: Table, stage: int, hoursAgo: nat, now: int, send: (int, UserId) -> SendOutcome)
    : (r: Table)
    requires TableValid(t)
    ensures TableValid(r) && r.rows == t.rows && r.users.Keys == t.users.Keys
  {
    AfterSends(t, IdsOf(UsersForWarmup(t, stage - 1, hoursAgo, now)), stage, now, send)
  }

  /** One pass changes exactly the rows that were due at stage - 1: a delivered
      reminder moves the row from stage - 1 to stage, a 403 blocks it at
      stage - 1, any other failure leaves it to be retried. */
  lemma StagePassEffect(t: Table, stage: int, hoursAgo: nat, now: int, send: (int, UserId) -> SendOutcome)
    requires TableValid(t)
    ensures var r := StagePass(t, stage, hoursAgo, now, send);
      forall id :: id in t.users ==>
        r.users[id] == if IsDue(t.users[id], stage - 1, hoursAgo, now)
                       then Transition(t.users[id], send(stage, id), stage, now)
                       else t.users[id]
  {
    var due := UsersForWarmup(t, stage - 1, hoursAgo, now);
    var ids := IdsOf(due);
    forall id | id in ids ensures id in t.users && IsDue(t.users[id], stage - 1, hoursAgo, now) {
      var k :| 0 <= k < |ids| && ids[k] == id;
      assert due[k] in due;
    }
    forall id | id in t.users && IsDue(t.users[id], stage - 1, hoursAgo, now) ensures id in ids {
      var u := t.users[id];
      assert u in due;
      var k :| 0 <= k < |due| && due[k] == u;
      assert ids[k] == id;
    }
    AfterSendsEffect(t, ids, stage, now, send);
  }

  /** The table after one scheduler tick: stages 1, 2 and 3, each pass starting
      on the table the previous one left. */
  function AfterTick(t: Table, d: Delays, now: int, send: (int, UserId) -> SendOutcome): (r: Table)
    requires TableValid(t)
    ensures TableValid(r) && r.rows == t.rows && r.users.Keys == t.users.Keys
  {
    var t1 := StagePass(t, 1, d.first, now, send);
    var t2 := StagePass(t1, 2, d.second, now, send);
    StagePass(t2, 3, d.third, now, send)
  }

  /** What one pass may do to a row. */
  ghost predicate PassStep(u: UserRecord, v: UserRecord, stage: int, now: int)
  {
    v == u
    || (&& !u.hasParticipated && !u.isBlocked && u.warmupStage == stage - 1
        && exists o: SendOutcome :: v == Transition(u, o, stage, now))
  }

  /** What a whole tick may do to a row. */
  ghost predicate TickStep(u: UserRecord, v: UserRecord, now: int)
  {
    // only the stage, its timestamp and the blocked flag can change
    && v.(warmupStage := u.warmupStage, lastWarmupAt := u.lastWarmupAt, isBlocked := u.isBlocked) == u
    // a row that has participated or is blocked is left alone
    && (u.hasParticipated || u.isBlocked ==> v == u)
    // blocking is permanent
    && (u.isBlocked ==> v.isBlocked)
    // the stage never decreases, rises only from 0, 1 or 2, and reaches at most 3
    && (v.warmupStage == u.warmupStage || 0 <= u.warmupStage < v.warmupStage <= 3)
    // a stage change is stamped with the tick's time
    && (v.warmupStage != u.warmupStage ==> v.lastWarmupAt == Some(now))
  }

  lemma PassStepsMakeTickStep(u0: UserRecord, u1: UserRecord, u2: UserRecord, u3: UserRecord, now: int)
    requires PassStep(u0, u1, 1, now) && PassStep(u1, u2, 2, now) && PassStep(u2, u3, 3, now)
    ensures TickStep(u0, u3, now)
  {
  }

  lemma StagePassSteps(t: Table, stage: int, hoursAgo: nat, now: int, send: (int, UserId) -> SendOutcome)
    requires TableValid(t)
    ensures var r := StagePass(t, stage, hoursAgo, now, send);
      forall id :: id in t.users ==> PassStep(t.users[id], r.users[id], stage, now)
  {
    var r := StagePass(t, stage, hoursAgo, now, send);
    StagePassEffect(t, stage, hoursAgo, now, send);
    forall id | id in t.users ensures PassStep(t.users[id], r.users[id], stage, now) {
      if IsDue(t.users[id], stage - 1, hoursAgo, now) {
        assert r.users[id] == Transition(t.users[id], send(stage, id), stage, now);
      }
    }
  }

  /** A tick adds no row and removes none, and moves each row by at most the
      steps of the lifecycle: stages only go up, by at most three in total,
      and participated or blocked rows are left alone. */
  lemma TickEffect(t: Table, d: Delays, now: int, send: (int, UserId) -> SendOutcome)
    requires TableValid(t)
    ensures var r := AfterTick(t, d, now, send);
      forall id :: id in t.users ==> TickStep(t.users[id], r.users[id], now)
  {
    var t1 := StagePass(t, 1, d.first, now, send);
    var t2 := StagePass(t1, 2, d.second, now, send);
    var t3 := StagePass(t2, 3, d.third, now, send);
    StagePassSteps(t, 1, d.first, now, send);
    StagePassSteps(t1, 2, d.second, now, send);
    StagePassSteps(t2, 3, d.third, now, send);
    forall id | id in t.users ensures TickStep(t.users[id], t3.users[id], now) {
      PassStepsMakeTickStep(t.users[id], t1.users[id], t2.users[id], t3.users[id], now);
    }
  }

  /** Eligibility is measured from registration, not from the previous reminder:
      a user registered 72 hours ago and still at stage 0 receives all three
      reminders in a single tick when the messenger delivers them. */
  lemma TickCanSendAllThreeReminders(data: Profile)
    ensures var t := Upserted(EmptyTable, 7, data, 0);
      var r := AfterTick(t, Delays(1, 24, 72), 72 * 3600, (stage, id) => Delivered);
      r.users[7].warmupStage == 3 && r.users[7].lastWarmupAt == Some(72 * 3600)
  {
    var t := Upserted(EmptyTable, 7, data, 0);
    var now := 72 * 3600;
    var send := (stage: int, id: UserId) => Delivered;
    var t1 := StagePass(t, 1, 1, now, send);
    var t2 := StagePass(t1, 2, 24, now, send);
    StagePassEffect(t, 1, 1, now, send);
    StagePassEffect(t1, 2, 24, now, send);
    StagePassEffect(t2, 3, 72, now, send);
  }

  /** A pass in which every send fails with an error other than 403 changes nothing. */
  lemma PassWithTransientFailures(t: Table, stage: int, hoursAgo: nat, now: int, send: (int, UserId) -> SendOutcome)
    requires TableValid(t)
    requires forall id :: id in t.users ==> send(stage, id).OtherError?
    ensures StagePass(t, stage, hoursAgo, now, send) == t
  {
    var r := StagePass(t, stage, hoursAgo, now, send);
    StagePassEffect(t, stage, hoursAgo, now, send);
    forall id | id in t.users ensures r.users[id] == t.users[id] {
      assert send(stage, id) == OtherError;
    }
    assert r.users == t.users;
  }

  /** When every send fails with an error other than 403, a tick changes nothing:
      the same users are retried on the next tick. */
  lemma TickWithTransientFailuresChangesNothing(t: Table, d: Delays, now: int, send: (int, UserId) -> SendOutcome)
    requires TableValid(t)
    requires forall stage, id :: send(stage, id).OtherError?
    ensures AfterTick(t, d, now, send) == t
  {
    PassWithTransientFailures(t, 1, d.first, now, send);
    PassWithTransientFailures(t, 2, d.second, now, send);
    PassWithTransientFailures(t, 3, d.third, now, send);
  }

  /** One more send extends both the table and the delivered count by that send. */
  lemma AfterSendsPrefixStep(
    t: Table, ids: seq<UserId>, i: nat, stage: int, now: int, send: (int, UserId) -> SendOutcome)
    requires i < |ids|
    ensures AfterSends(t, ids[..i + 1], stage, now, send)
            == AfterSend(AfterSends(t, ids[..i], stage, now, send), ids[i], stage, send(stage, ids[i]), now)
    ensures CountDelivered(ids[..i + 1], stage, send)
            == CountDelivered(ids[..i], stage, send) + (if send(stage, ids[i]).Delivered? then 1 else 0)
  {
    assert ids[..i + 1][..i] == ids[..i];
  }

  /** sendWarmupMessage(bot, user, message, stage) for a send whose outcome is `outcome`. */
  method SendWarmupMessage(store: UserStore, user: UserRecord, stage: int, outcome: SendOutcome, now: int)
    returns (success: bool)
    requires store.Valid()
    modifies store
    ensures store.Valid()
    ensures store.Snapshot() == AfterSend(old(store.Snapshot()), user.telegramId, stage, outcome, now)
    ensures success <==> outcome.Delivered?
  {
    match outcome {
      case Delivered =>
        var _ := store.UpdateWarmupStage(user.telegramId, stage, now);
        success := true;
      case Forbidden403 =>
        var _ := store.MarkAsBlocked(user.telegramId);
        success := false;
      case OtherError =>
        success := false;
    }
  }

  /** processWarmupStage(bot, stage, hoursAgo, message): `sent` and `failed`
      are the counters the source logs at the end of the pass. */
  method ProcessWarmupStage(store: UserStore, stage: int, hoursAgo: nat, now: int,
                            send: (int, UserId) -> SendOutcome)
    returns (sent: nat, failed: nat)
    requires store.Valid()
    modifies store
    ensures store.Valid()
    ensures store.Snapshot() == StagePass(old(store.Snapshot()), stage, hoursAgo, now, send)
    ensures var due := UsersForWarmup(old(store.Snapshot()), stage - 1, hoursAgo, now);
      && sent + failed == |due|
      && sent == CountDelivered(IdsOf(due), stage, send)
  {
    var users := UsersForWarmup(store.Snapshot(), stage - 1, hoursAgo, now);
    ghost var ids := IdsOf(users);
    ghost var start := store.Snapshot();
    if |users| == 0 {
      return 0, 0;
    }
    sent, failed := 0, 0;
    for i := 0 to |users|
      invariant store.Valid()
      invariant store.Snapshot() == AfterSends(start, ids[..i], stage, now, send)
      invariant sent + failed == i
      invariant sent == CountDelivered(ids[..i], stage, send)
    {
      var outcome := send(stage, users[i].telegramId);
      var success := SendWarmupMessage(store, users[i], stage, outcome, now);
      AfterSendsPrefixStep(start, ids, i, stage, now, send);
      if success {
        sent := sent + 1;
      } else {
        failed := failed + 1;
      }
    }
    assert ids[..|users|] == ids;
  }

  /** The body of the job startWarmupScheduler registers: stages 1, 2 and 3 in order. */
  method WarmupTick(store: UserStore, d: Delays, now: int, send: (int, UserId) -> SendOutcome)
    requires store.Valid()
    modifies store
    ensures store.Valid()
    ensures store.Snapshot() == AfterTick(old(store.Snapshot()), d, now, send)
  {
    var _, _ := ProcessWarmupStage(store, 1, d.first, now, send);
    var _, _ := ProcessWarmupStage(store, 2, d.second, now, send);
    var _, _ := ProcessWarmupStage(store, 3, d.third, now, send);
  }
}
