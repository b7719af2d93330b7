/**
 * The warm-up reminder queue (notification_service.go): a Redis sorted set
 * `delayedNotificationList` mapping each user to the Unix time of their
 * next reminder, filled from the users' weekly notification slots.
 *
 * Redis and Postgres are replaced by values: the sorted set is the map
 * `queue`, the results of the database queries are parameters.
 */
module Notifications {
  import opened Wrappers

  /** Sorted set member -> score (Unix seconds). */
  type Queue = map<int, int>

  /** `ZScore`: the member's score, 0 for a member that is not in the set. */
  function Score(q: Queue, userID: int): (s: int)
    ensures userID !in q ==> s == 0
    ensures userID in q ==> s == q[userID]
  {
    if userID in q then q[userID] else 0
  }

  /**
   * The queue after `addUser(userID, timestamp)`: a zero timestamp is
   * ignored, and a user already queued is only ever moved earlier.
   */
  function AddAt(q: Queue, userID: int, timestamp: int): (q': Queue)
    ensures q'.Keys <= q.Keys + {userID}
    ensures forall u | u in q && u != userID :: u in q' && q'[u] == q[u]
  {
    var current := Score(q, userID);
    if timestamp == 0 then q
    else if timestamp > current && current != 0 then q
    else q[userID := timestamp]
  }

  /** `addUser` stores the timestamp exactly when it is non-zero and no later than a queued one. */
  lemma AddAtStoresIff(q: Queue, userID: int, timestamp: int)
    requires NoZeroScores(q)
    ensures userID in AddAt(q, userID, timestamp) && AddAt(q, userID, timestamp)[userID] == timestamp
            <==> timestamp != 0 && (Score(q, userID) == 0 || timestamp <= Score(q, userID))
    ensures AddAt(q, userID, timestamp) == q || AddAt(q, userID, timestamp) == q[userID := timestamp]
  {
  }

  /** A queued user with a non-zero score is never moved later. */
  lemma AddAtNeverLater(q: Queue, userID: int, timestamp: int)
    requires userID in q && q[userID] != 0
    ensures userID in AddAt(q, userID, timestamp)
    ensures AddAt(q, userID, timestamp)[userID] <= q[userID]
    ensures AddAt(q, userID, timestamp)[userID] == q[userID]
            || AddAt(q, userID, timestamp)[userID] == timestamp
  {
  }

  /** No score in the queue is zero (`addUser` never writes one). */
  predicate NoZeroScores(q: Queue)
  {
    forall u | u in q :: q[u] != 0
  }

  lemma AddAtKeepsNoZero(q: Queue, userID: int, timestamp: int)
    requires NoZeroScores(q)
    ensures NoZeroScores(AddAt(q, userID, timestamp))
  {
  }

  // ------------------------------------------------------------ one tick

  /**
   * What `ZRevRangeByScore(min 1, max now)` returns: every member whose
   * score lies in 1..now, each once, highest score first.
   */
  predicate DueList(q: Queue, now: int, users: seq<int>)
  {
    && (forall i | 0 <= i < |users| :: users[i] in q && 1 <= q[users[i]] <= now)
    && (forall u | u in q && 1 <= q[u] <= now :: u in users)
    && (forall i, j | 0 <= i < j < |users| :: users[i] != users[j] && q[users[i]] >= q[users[j]])
  }

  /** The users listed in `s`. */
  function Members(s: seq<int>): (m: set<int>)
    ensures forall u :: u in m <==> u in s
  {
    if |s| == 0 then {} else Members(s[..|s| - 1]) + {s[|s| - 1]}
  }

  predicate Distinct(s: seq<int>)
  {
    forall i, j | 0 <= i < j < |s| :: s[i] != s[j]
  }

  /**
   * `updateList` of `processUsers`: the due users whose handler succeeded
   * and whose removal from the set succeeded, in order.
   */
  function Succeeded(users: seq<int>, handlerFails: set<int>, delFails: set<int>): (s: seq<int>)
    ensures |s| <= |users|
  {
    if |users| == 0 then []
    else
      var rest := Succeeded(users[..|users| - 1], handlerFails, delFails);
      var u := users[|users| - 1];
      if u in handlerFails || u in delFails then rest else rest + [u]
  }

  /** One more user of the due list: appended to the update list exactly when both calls succeeded. */
  lemma SucceededStep(users: seq<int>, i: nat, handlerFails: set<int>, delFails: set<int>)
    requires i < |users|
    ensures Succeeded(users[..i + 1], handlerFails, delFails)
         == if users[i] in handlerFails || users[i] in delFails then Succeeded(users[..i], handlerFails, delFails)
            else Succeeded(users[..i], handlerFails, delFails) + [users[i]]
  {
    assert users[..i + 1][..i] == users[..i];
  }

  /** `q` after removing the users of `s` one at a time, in order. */
  function RemovedAll(q: Queue, s: seq<int>): Queue
  {
    if |s| == 0 then q else RemovedAll(q, s[..|s| - 1]) - {s[|s| - 1]}
  }

  /** Removing one more user. */
  lemma RemovedAllSnoc(q: Queue, s: seq<int>, u: int)
    ensures RemovedAll(q, s + [u]) == RemovedAll(q, s) - {u}
  {
    assert (s + [u])[..|s|] == s;
  }

  /** The queue after one more user of the due list: that user is gone exactly when both calls succeeded. */
  lemma RemovedSucceededStep(q: Queue, users: seq<int>, i: nat, handlerFails: set<int>, delFails: set<int>)
    requires i < |users|
    ensures RemovedAll(q, Succeeded(users[..i + 1], handlerFails, delFails))
         == if users[i] in handlerFails || users[i] in delFails then RemovedAll(q, Succeeded(users[..i], handlerFails, delFails))
            else RemovedAll(q, Succeeded(users[..i], handlerFails, delFails)) - {users[i]}
  {
    SucceededStep(users, i, handlerFails, delFails);
    RemovedAllSnoc(q, Succeeded(users[..i], handlerFails, delFails), users[i]);
  }

  lemma {:induction false} RemovedAllMembers(q: Queue, s: seq<int>)
    ensures RemovedAll(q, s) == q - Members(s)
  {
    if |s| > 0 {
      RemovedAllMembers(q, s[..|s| - 1]);
    }
  }

  /** A user is in the update list exactly when it was due and both calls succeeded. */
  lemma {:induction false} SucceededMembers(users: seq<int>, handlerFails: set<int>, delFails: set<int>)
    ensures forall u :: u in Succeeded(users, handlerFails, delFails) <==> u in users && u !in handlerFails && u !in delFails
  {
    if |users| > 0 {
      var init := users[..|users| - 1];
      SucceededMembers(init, handlerFails, delFails);
      assert users == init + [users[|users| - 1]];
    }
  }

  lemma {:induction false} SucceededDistinct(users: seq<int>, handlerFails: set<int>, delFails: set<int>)
    requires Distinct(users)
    ensures Distinct(Succeeded(users, handlerFails, delFails))
  {
    if |users| > 0 {
      var init := users[..|users| - 1];
      assert Distinct(init) by {
        forall i, j | 0 <= i < j < |init| ensures init[i] != init[j] {
          assert init[i] == users[i] && init[j] == users[j];
        }
      }
      SucceededDistinct(init, handlerFails, delFails);
      SucceededMembers(init, handlerFails, delFails);
      assert users[|users| - 1] !in init;
    }
  }

  /** The re-add loop of `processUsers`: `addUser` with the fresh timestamp of each listed user found in `bulk`. */
  function Readd(q: Queue, list: seq<int>, bulk: map<int, int>): Queue
  {
    if |list| == 0 then q
    else
      var q1 := Readd(q, list[..|list| - 1], bulk);
      var u := list[|list| - 1];
      if u in bulk then AddAt(q1, u, bulk[u]) else q1
  }

  /**
   * Re-adding distinct users that are absent from the queue puts each one
   * back with its fresh timestamp when that is non-zero, and touches no one else.
   */
  lemma {:induction false} ReaddEffect(q: Queue, list: seq<int>, bulk: map<int, int>, u: int)
    requires Distinct(list)
    requires forall i | 0 <= i < |list| :: list[i] !in q
    ensures u !in list ==> (u in Readd(q, list, bulk) <==> u in q)
    ensures u !in list && u in q ==> Readd(q, list, bulk)[u] == q[u]
    ensures u in list ==> (u in Readd(q, list, bulk) <==> u in bulk && bulk[u] != 0)
    ensures u in list && u in bulk && bulk[u] != 0 ==> Readd(q, list, bulk)[u] == bulk[u]
  {
    if |list| > 0 {
      var init := list[..|list| - 1];
      var last := list[|list| - 1];
      assert Distinct(init) by {
        forall i, j | 0 <= i < j < |init| ensures init[i] != init[j] {
          assert init[i] == list[i] && init[j] == list[j];
        }
      }
      assert forall i | 0 <= i < |init| :: init[i] !in q by {
        forall i | 0 <= i < |init| ensures init[i] !in q {
          assert init[i] == list[i];
        }
      }
      ReaddEffect(q, init, bulk, u);
      ReaddEffect(q, init, bulk, last);
      assert last !in init;
      if u != last {
        assert u in list <==> u in init;
      }
    }
  }

  /**
   * The queue after one `processUsers` tick: succeeded users are removed,
   * then re-added from `bulk`.
   */
  function Tick(q: Queue, users: seq<int>, handlerFails: set<int>, delFails: set<int>, bulk: map<int, int>): Queue
  {
    var done := Succeeded(users, handlerFails, delFails);
    Readd(q - Members(done), done, bulk)
  }

  /**
   * What one tick does to each user: entries that are not due, or whose
   * handler or removal failed, stay as they were; a notified user is
   * rescheduled at its fresh timestamp, or leaves the queue when `bulk`
   * has none; nobody new is queued.
   */
  lemma TickEffect(q: Queue, now: int, users: seq<int>, handlerFails: set<int>, delFails: set<int>,
                   bulk: map<int, int>, u: int)
    requires DueList(q, now, users)
    ensures u in q && !(1 <= q[u] <= now) ==> u in Tick(q, users, handlerFails, delFails, bulk)
                                              && Tick(q, users, handlerFails, delFails, bulk)[u] == q[u]
    ensures u in q && (u in handlerFails || u in delFails) ==>
      u in Tick(q, users, handlerFails, delFails, bulk) && Tick(q, users, handlerFails, delFails, bulk)[u] == q[u]
    ensures u in users && u !in handlerFails && u !in delFails ==>
      (u in Tick(q, users, handlerFails, delFails, bulk) <==> u in bulk && bulk[u] != 0)
    ensures u in users && u !in handlerFails && u !in delFails && u in bulk && bulk[u] != 0 ==>
      Tick(q, users, handlerFails, delFails, bulk)[u] == bulk[u]
    ensures u !in q ==> u !in Tick(q, users, handlerFails, delFails, bulk)
  {
    var done := Succeeded(users, handlerFails, delFails);
    var q0 := q - Members(done);
    assert Distinct(users);
    SucceededDistinct(users, handlerFails, delFails);
    SucceededMembers(users, handlerFails, delFails);
    ReaddEffect(q0, done, bulk, u);
  }

  // ------------------------------------------------------------ rebuild

  /** The queue `RebuildQueue` builds from an empty set: every non-zero timestamp of the bulk query. */
  function Rebuilt(bulk: map<int, int>): (q: Queue)
    ensures q.Keys <= bulk.Keys
    ensures NoZeroScores(q)
  {
    map u | u in bulk && bulk[u] != 0 :: bulk[u]
  }

  /** `order` lists every key of `bulk` exactly once. */
  predicate IterationOrder(bulk: map<int, int>, order: seq<int>)
  {
    && (forall i | 0 <= i < |order| :: order[i] in bulk)
    && (forall k | k in bulk :: k in order)
    && (forall i, j | 0 <= i < j < |order| :: order[i] != order[j])
  }

  /** The part of `Rebuilt` contributed by the rows whose keys are in `done`. */
  function RebuiltFrom(bulk: map<int, int>, done: set<int>): Queue
    requires done <= bulk.Keys
  {
    map u | u in done && bulk[u] != 0 :: bulk[u]
  }

  /** One iteration of the rebuild loop: `addUser` of a fresh key adds its row unless the timestamp is 0. */
  lemma RebuiltFromStep(bulk: map<int, int>, done: set<int>, key: int)
    requires done <= bulk.Keys && key in bulk && key !in done
    ensures AddAt(RebuiltFrom(bulk, done), key, bulk[key]) == RebuiltFrom(bulk, done + {key})
  {
  }

  // ------------------------------------------------------------ day offset

  /**
   * The `CASE` that picks how many days ahead a weekly slot falls: `target`
   * and `today` are days of the week (0 = Sunday), `beforeTrigger` says the
   * user's local time of day is still before the slot's time.
   */
  function DayOffset(target: int, today: int, beforeTrigger: bool): int
  {
    if target == today && beforeTrigger then 0
    else if target > today then target - today
    else 7 - today + target
  }

  /** The offset is within a week, zero only for a slot later today, a full week for a slot that passed today. */
  lemma DayOffsetRange(target: int, today: int, beforeTrigger: bool)
    requires 0 <= target < 7 && 0 <= today < 7
    ensures 0 <= DayOffset(target, today, beforeTrigger) <= 7
    ensures DayOffset(target, today, beforeTrigger) == 0 <==> target == today && beforeTrigger
    ensures DayOffset(target, today, beforeTrigger) == 7 <==> target == today && !beforeTrigger
    ensures (today + DayOffset(target, today, beforeTrigger)) % 7 == target
  {
  }

  const SecondsPerDay := 86400

  /** Day of the week of the day `day` days after 1 January 1970, a Thursday (0 = Sunday). */
  function Weekday(day: int): (d: int)
    ensures 0 <= d < 7
  {
    (day + 4) % 7
  }

  /**
   * The Unix time of the next occurrence of a weekly slot (weekday
   * `target`, `triggerTime` seconds after local midnight) for a user whose
   * offset from UTC is `tzMinutes`, as computed at Unix time `now`.
   */
  function NextOccurrence(now: int, tzMinutes: int, target: int, triggerTime: int): int
    requires 0 <= target < 7 && 0 <= triggerTime < SecondsPerDay
  {
    var local := now + tzMinutes * 60;
    var day := local / SecondsPerDay;
    var timeOfDay := local % SecondsPerDay;
    var offset := DayOffset(target, Weekday(day), timeOfDay < triggerTime);
    (day + offset) * SecondsPerDay + triggerTime - tzMinutes * 60
  }

  /**
   * The next occurrence lies strictly after `now` and at most a week later,
   * falls on the slot's weekday and time in local terms, and is the first
   * such time: one week earlier is already in the past.
   */
  lemma NextOccurrenceCorrect(now: int, tzMinutes: int, target: int, triggerTime: int)
    requires 0 <= target < 7 && 0 <= triggerTime < SecondsPerDay
    ensures var ts := NextOccurrence(now, tzMinutes, target, triggerTime);
      && now < ts <= now + 7 * SecondsPerDay
      && (ts + tzMinutes * 60) % SecondsPerDay == triggerTime
      && Weekday((ts + tzMinutes * 60) / SecondsPerDay) == target
      && ts - 7 * SecondsPerDay <= now
  {
    var local := now + tzMinutes * 60;
    var day := local / SecondsPerDay;
    var timeOfDay := local % SecondsPerDay;
    var offset := DayOffset(target, Weekday(day), timeOfDay < triggerTime);
    DayOffsetRange(target, Weekday(day), timeOfDay < triggerTime);
    assert local == day * SecondsPerDay + timeOfDay;
    var lts := (day + offset) * SecondsPerDay + triggerTime;
    assert lts % SecondsPerDay == triggerTime && lts / SecondsPerDay == day + offset by {
      DivModOf(day + offset, triggerTime);
    }
    assert (day + offset + 4) % 7 == target by {
      assert (day + offset + 4) % 7 == ((day + 4) % 7 + offset) % 7;
    }
  }

  lemma DivModOf(q: int, r: int)
    requires 0 <= r < SecondsPerDay
    ensures (q * SecondsPerDay + r) % SecondsPerDay == r
    ensures (q * SecondsPerDay + r) / SecondsPerDay == q
  {
  }

  /** The earliest next occurrence over a user's enabled slots (`MIN(...)`); NULL when there are none. */
  function Nearest(now: int, tzMinutes: int, slots: seq<(int, int)>): (r: Option<int>)
    requires forall i | 0 <= i < |slots| :: 0 <= slots[i].0 < 7 && 0 <= slots[i].1 < SecondsPerDay
    ensures r.None? <==> |slots| == 0
    ensures r.Some? ==> exists i | 0 <= i < |slots| :: r.value == NextOccurrence(now, tzMinutes, slots[i].0, slots[i].1)
    ensures r.Some? ==> forall i | 0 <= i < |slots| :: r.value <= NextOccurrence(now, tzMinutes, slots[i].0, slots[i].1)
  {
    if |slots| == 0 then None
    else
      var last := NextOccurrence(now, tzMinutes, slots[|slots| - 1].0, slots[|slots| - 1].1);
      var rest := Nearest(now, tzMinutes, slots[..|slots| - 1]);
      if rest.None? || last < rest.value then Some(last) else rest
  }

  /** How `getNearestNotificationFromPg` ended: a row, a Postgres error, or another error (such as a NULL minimum). */
  datatype Lookup = Found(timestamp: int) | PgFailure | OtherFailure

  /** The lookup of a user whose nearest slot is `nearest`: no slot makes the scan of a NULL fail. */
  function LookupOf(nearest: Option<int>): (l: Lookup)
    ensures l.PgFailure? == false
    ensures nearest.Some? <==> l.Found?
  {
    match nearest
    case Some(ts) => Found(ts)
    case None => OtherFailure
  }

  /** `getNearestNotificationFromPg`: only Postgres errors are reported; any other failure reads as timestamp 0. */
  function LookupResult(l: Lookup): (r: (int, bool))
    ensures r.1 <==> l.PgFailure?
    ensures l.Found? ==> r.0 == l.timestamp
    ensures l.OtherFailure? ==> r == (0, false)
  {
    match l
    case Found(ts) => (ts, false)
    case PgFailure => (0, true)
    case OtherFailure => (0, false)
  }

  /** `NotificationService` with its sorted set held in memory. */
  class NotificationService {
    var queue: Queue

    constructor()
      ensures queue == map[]
    {
      queue := map[];
    }

    /** `addUser`: queue the user at `timestamp` unless that would move them later. */
    method AddUserAt(userID: int, timestamp: int)
      modifies this
      ensures queue == AddAt(old(queue), userID, timestamp)
      ensures timestamp == 0 ==> queue == old(queue)
      ensures userID in old(queue) && old(queue)[userID] != 0 ==> queue[userID] <= old(queue)[userID]
    {
      var current := Score(queue, userID);
      if timestamp == 0 {
        return;
      }
      if timestamp > current && current != 0 {
        return;
      }
      queue := queue[userID := timestamp];
    }

    /** `AddUser`: look up the nearest slot, report only Postgres errors, then `addUser`. */
    method AddUser(userID: int, lookup: Lookup) returns (failed: bool)
      modifies this
      ensures failed <==> lookup.PgFailure?
      ensures failed ==> queue == old(queue)
      ensures lookup.OtherFailure? ==> queue == old(queue)
      ensures lookup.Found? ==> queue == AddAt(old(queue), userID, lookup.timestamp)
    {
      var ts, err := LookupResult(lookup).0, LookupResult(lookup).1;
      if err {
        return true;
      }
      AddUserAt(userID, ts);
      return false;
    }

    /** `DelUser`: `ZRem`. */
    method DelUser(userID: int)
      modifies this
      ensures queue == old(queue) - {userID}
    {
      queue := queue - {userID};
    }

    /**
     * `processUsers` for one tick at `now`. `due` is the range query's
     * answer (None when it failed); the handler and `ZRem` failures and the
     * bulk query's rows are given. Returns the users the handler was called
     * for, in call order, and the update list.
     */
    method ProcessUsers(now: int, due: Option<seq<int>>, handlerFails: set<int>, delFails: set<int>,
                        bulk: map<int, int>)
      returns (failed: bool, notified: seq<int>, updateList: seq<int>)
      requires due.Some? ==> DueList(queue, now, due.value)
      modifies this
      ensures failed <==> due.None?
      ensures due.None? ==> queue == old(queue) && notified == []
      ensures due.Some? ==> notified == due.value
      ensures due.Some? ==> forall i, j | 0 <= i < j < |notified| :: old(queue)[notified[i]] >= old(queue)[notified[j]]
      ensures due.Some? ==> updateList == Succeeded(due.value, handlerFails, delFails)
      ensures due.Some? ==> queue == Tick(old(queue), due.value, handlerFails, delFails, bulk)
    {
      if due.None? {
        return true, [], [];
      }
      var users := due.value;
      notified, updateList := NotifyDue(users, handlerFails, delFails);
      ReaddUpdated(updateList, bulk);
      return false, notified, updateList;
    }

    /** The first loop of `processUsers`: call the handler, then `DelUser` each succeeded user. */
    method NotifyDue(users: seq<int>, handlerFails: set<int>, delFails: set<int>)
      returns (notified: seq<int>, updateList: seq<int>)
      modifies this
      ensures notified == users
      ensures updateList == Succeeded(users, handlerFails, delFails)
      ensures queue == old(queue) - Members(updateList)
    {
      notified, updateList := [], [];
      for i := 0 to |users|
        invariant notified == users[..i]
        invariant updateList == Succeeded(users[..i], handlerFails, delFails)
        invariant queue == RemovedAll(old(queue), updateList)
      {
        var userID := users[i];
        notified := notified + [userID];
        SucceededStep(users, i, handlerFails, delFails);
        RemovedSucceededStep(old(queue), users, i, handlerFails, delFails);
        // a failed handler or a failed `DelUser` skips the user
        if userID !in handlerFails && userID !in delFails {
          DelUser(userID);
          updateList := updateList + [userID];
        }
      }
      assert users[..|users|] == users;
      RemovedAllMembers(old(queue), updateList);
    }

    /** The second loop of `processUsers`: `addUser` each updated user found in the bulk result. */
    method ReaddUpdated(updateList: seq<int>, bulk: map<int, int>)
      modifies this
      ensures queue == Readd(old(queue), updateList, bulk)
    {
      for k := 0 to |updateList|
        invariant queue == Readd(old(queue), updateList[..k], bulk)
      {
        var updateUserID := updateList[k];
        assert updateList[..k + 1][..k] == updateList[..k];
        if updateUserID !in bulk {
          continue;
        }
        AddUserAt(updateUserID, bulk[updateUserID]);
      }
      assert updateList[..|updateList|] == updateList;
    }

    /**
     * `RebuildQueue`: purge the set, then queue every row of the bulk query
     * (None when it failed), visiting its keys in `order`, the order Go's
     * map iteration happens to take. A failed purge aborts before anything else.
     */
    method RebuildQueue(purgeFails: bool, bulk: Option<map<int, int>>, order: seq<int>) returns (failed: bool)
      requires bulk.Some? ==> IterationOrder(bulk.value, order)
      modifies this
      ensures failed <==> purgeFails || bulk.None?
      ensures purgeFails ==> queue == old(queue)
      ensures !purgeFails && bulk.None? ==> queue == map[]
      ensures bulk.Some? && !purgeFails ==> queue == Rebuilt(bulk.value)
    {
      if purgeFails {
        return true;
      }
      queue := map[];
      if bulk.None? {
        return true;
      }
      var rows := bulk.value;
      ghost var done: set<int> := {};
      for i := 0 to |order|
        invariant done <= rows.Keys
        invariant forall j | 0 <= j < i :: order[j] in done
        invariant forall j | i <= j < |order| :: order[j] !in done
        invariant queue == RebuiltFrom(rows, done)
      {
        var key := order[i];
        RebuiltFromStep(rows, done, key);
        AddUserAt(key, rows[key]);
        done := done + {key};
      }
      forall k | k in rows
        ensures k in done
      {
        var j :| 0 <= j < |order| && order[j] == k;
      }
      assert done == rows.Keys;
      return false;
    }
  }
}
