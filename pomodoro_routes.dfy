/**
 * The timer-settings routes of star-note-backend/routes/pomodoroRoutes.js over an abstract
 * table: a map from `_id` to document. A caller names itself with a `user_id` field (`None`
 * when it is missing or empty); a numeric request field that is missing or falsy is 0, and `now`
 * is the time the save hook stamps.
 */
module PomodoroRoutes {
  import opened Wrappers
  import opened Replies

  /** A stored timer; `xp` is `None` for a document that has no xp field. */
  datatype Timer = Timer(userId: nat, sessions: int, durationMin: int, xp: Option<int>, updatedAt: int)

  const UserRequired := "User ID is required"
  const TimerNotFound := "Pomodoro timer not found"

  /** JavaScript's `value || fallback` on a number, with 0 as the falsy value. */
  function OrElse(value: int, fallback: int): (r: int)
    ensures value != 0 ==> r == value
    ensures value == 0 ==> r == fallback
  {
    if value != 0 then value else fallback
  }

  /** A user's first settings: the values given, else 4 sessions of 25 minutes, and no xp yet. */
  function NewTimer(userId: nat, sessions: int, durationMin: int, now: int): (r: Timer)
    ensures r.userId == userId && r.xp == Some(0) && r.updatedAt == now
    ensures r.sessions == (if sessions != 0 then sessions else 4)
    ensures r.durationMin == (if durationMin != 0 then durationMin else 25)
  {
    Timer(userId, OrElse(sessions, 4), OrElse(durationMin, 25), Some(0), now)
  }

  /** Later settings: each value given replaces the stored one; a missing one keeps it. */
  function Resettled(t: Timer, sessions: int, durationMin: int, now: int): (r: Timer)
    ensures r.userId == t.userId && r.xp == t.xp && r.updatedAt == now
    ensures r.sessions == (if sessions != 0 then sessions else t.sessions)
    ensures r.durationMin == (if durationMin != 0 then durationMin else t.durationMin)
  {
    t.(sessions := OrElse(sessions, t.sessions), durationMin := OrElse(durationMin, t.durationMin), updatedAt := now)
  }

  /** Posting the stored values back changes nothing but the time stamp. */
  lemma ResettledSame(t: Timer, now: int)
    ensures Resettled(t, t.sessions, t.durationMin, now) == t.(updatedAt := now)
  {
  }

  /** The xp after one finished session: the stored xp (0 when missing) plus one. */
  function XpAfterSession(xp: Option<int>): (r: int)
    ensures xp.None? ==> r == 1
    ensures xp.Some? ==> r == xp.value + 1
  {
    xp.GetOr(0) + 1
  }

  /** At most one timer per user. */
  ghost predicate OnePerUser(timers: map<Id, Timer>) {
    forall a, b :: a in timers && b in timers && timers[a].userId == timers[b].userId ==> a == b
  }

  /** The user has a timer. */
  predicate HasTimer(timers: map<Id, Timer>, userId: nat) {
    exists k :: k in timers && timers[k].userId == userId
  }

  class TimerStore {
    var timers: map<Id, Timer>
    var nextId: Id

    /** Every stored id was handed out, and no user has two timers. */
    ghost predicate Valid()
      reads this
    {
      (forall k :: k in timers ==> k < nextId) && OnePerUser(timers)
    }

    constructor()
      ensures Valid() && timers == map[] && nextId == 0
    {
      timers := map[];
      nextId := 0;
    }

    /** `findOne({ _id: id, user_id: userId })` finds the timer. */
    predicate Owned(id: Id, userId: nat)
      reads this
    {
      id in timers && timers[id].userId == userId
    }

    /**
     * `POST /`: 400 without a user; a user who has a timer gets it resettled (200), any other a
     * new one (201). Either way the user ends up with exactly one timer.
     */
    method Save(userId: Option<nat>, sessions: int, durationMin: int, now: int) returns (reply: Reply<Timer>)
      requires Valid()
      modifies this
      ensures Valid()
      ensures userId.None? ==> reply == Error(400, UserRequired) && timers == old(timers) && nextId == old(nextId)
      ensures userId.Some? && HasTimer(old(timers), userId.value) ==>
                nextId == old(nextId) && reply.Ok? && reply.code == 200
                && reply.body == Resettled(old(timers)[Found(old(timers), userId.value)], sessions, durationMin, now)
                && timers == old(timers)[Found(old(timers), userId.value) := reply.body]
      ensures userId.Some? && !HasTimer(old(timers), userId.value) ==>
                old(nextId) !in old(timers) && nextId == old(nextId) + 1
                && reply == Ok(201, NewTimer(userId.value, sessions, durationMin, now))
                && timers == old(timers)[old(nextId) := reply.body]
      ensures userId.Some? ==> |set k | k in timers && timers[k].userId == userId.value| == 1
    {
      if userId.None? {
        return Error(400, UserRequired);
      }
      var user := userId.value;
      if exists k :: k in timers && timers[k].userId == user {
        var id :| id in timers && timers[id].userId == user;
        assert id == Found(timers, user);
        var t := timers[id];
        t := t.(sessions := if sessions != 0 then sessions else t.sessions);
        t := t.(durationMin := if durationMin != 0 then durationMin else t.durationMin);
        t := t.(updatedAt := now);
        SingleOwner(timers, user, id);
        timers := timers[id := t];
        SingleOwner(timers, user, id);
        reply := Ok(200, t);
      } else {
        var t := NewTimer(user, sessions, durationMin, now);
        timers := timers[nextId := t];
        SingleOwner(timers, user, nextId);
        nextId := nextId + 1;
        reply := Ok(201, t);
      }
    }

    /** `GET /`: 400 without a user, 404 when the user has no timer, else that timer. */
    method Load(userId: Option<nat>) returns (reply: Reply<Timer>)
      requires Valid()
      ensures userId.None? ==> reply == Error(400, UserRequired)
      ensures userId.Some? && !HasTimer(timers, userId.value) ==> reply == Error(404, TimerNotFound)
      ensures userId.Some? && HasTimer(timers, userId.value) ==>
                reply.Ok? && reply.code == 200 && reply.body in timers.Values && reply.body.userId == userId.value
    {
      if userId.None? {
        return Error(400, UserRequired);
      }
      if !(exists k :: k in timers && timers[k].userId == userId.value) {
        return Error(404, TimerNotFound);
      }
      var id :| id in timers && timers[id].userId == userId.value;
      reply := Ok(200, timers[id]);
    }

    /** `PUT /:id/xp`: 400 without a user, 404 unless the user owns the timer; else its xp goes up by one. */
    method IncrementXp(userId: Option<nat>, id: Id, now: int) returns (reply: Reply<int>)
      requires Valid()
      modifies this
      ensures Valid() && nextId == old(nextId)
      ensures userId.None? ==> reply == Error(400, UserRequired) && timers == old(timers)
      ensures userId.Some? && !old(Owned(id, userId.value)) ==> reply == Error(404, TimerNotFound) && timers == old(timers)
      ensures userId.Some? && old(Owned(id, userId.value)) ==>
                reply == Ok(200, XpAfterSession(old(timers)[id].xp))
                && timers == old(timers)[id := old(timers)[id].(xp := Some(reply.body), updatedAt := now)]
    {
      if userId.None? {
        return Error(400, UserRequired);
      }
      if !(id in timers && timers[id].userId == userId.value) {
        return Error(404, TimerNotFound);
      }
      var xp := (if timers[id].xp.Some? then timers[id].xp.value else 0) + 1;
      timers := timers[id := timers[id].(xp := Some(xp), updatedAt := now)];
      reply := Ok(200, xp);
    }
  }

  /** `findOne({ user_id })`: the id of the user's timer. */
  ghost function Found(timers: map<Id, Timer>, userId: nat): (k: Id)
    requires HasTimer(timers, userId)
    ensures k in timers && timers[k].userId == userId
  {
    var k :| k in timers && timers[k].userId == userId; k
  }

  /** When `id` is the only timer of `userId`'s, the set of the user's timers is `{id}`. */
  lemma {:induction false} SingleOwner(timers: map<Id, Timer>, userId: nat, id: Id)
    requires OnePerUser(timers) && id in timers && timers[id].userId == userId
    ensures (set k | k in timers && timers[k].userId == userId) == {id}
  {
  }
}
