/**
 get_user_history, save_user_history and the history update of engineer_single_event, with the stored
 dictionaries as objects that are handed out and changed in place. For the user of the event this is
 one step of UserHistories, and no other user's history moves.
 */
module HistoryStores {
  import opened Counting
  import opened Options
  import opened UserHistories

  /** One entry of _user_history, or the dictionary built from a Redis hash. */
  class HistoryDict {
    var firstSeenIp: Option<string>
    var prevIp: Option<string>
    var prevRegion: Option<string>
    var lastEventTime: Option<real>
    var ipHops30m: nat
    var adminActions15m: nat
    var failed30m: nat
    var events1h: nat

    constructor (h: History)
      ensures View() == h
    {
      firstSeenIp, prevIp, prevRegion, lastEventTime := h.firstSeenIp, h.prevIp, h.prevRegion, h.lastEventTime;
      ipHops30m, adminActions15m, failed30m, events1h := h.ipHops30m, h.adminActions15m, h.failed30m, h.events1h;
    }

    function View(): History
      reads this
    {
      History(firstSeenIp, prevIp, prevRegion, lastEventTime, ipHops30m, adminActions15m, failed30m, events1h)
    }

    /** The assignments of engineer_single_event, in its order. */
    method Update(e: Event)
      modifies this
      ensures View() == Record(old(View()), e)
    {
      prevRegion := Some(e.region);
      if firstSeenIp.None? {
        firstSeenIp := Some(e.ip);
      }
      var ipChanged := 0;
      if prevIp.Some? && prevIp.value != e.ip {
        ipChanged := 1;
      }
      prevIp := Some(e.ip);
      var timeSinceLast := 0.0;
      if lastEventTime.Some? {
        timeSinceLast := e.at - lastEventTime.value;
      }
      lastEventTime := Some(e.at);
      ipHops30m := Decay(ipHops30m, timeSinceLast, 30.0) + ipChanged;
      adminActions15m := Decay(adminActions15m, timeSinceLast, 15.0) + One(e.isAdmin);
      failed30m := Decay(failed30m, timeSinceLast, 30.0) + One(!e.success);
      events1h := Decay(events1h, timeSinceLast, 60.0) + 1;
    }
  }

  class HistoryStore {
    const redisUp: bool
    var redis: map<string, History>
    var local: map<string, HistoryDict>

    ghost predicate Valid()
      reads this
    {
      && (forall u, v :: u in local && v in local && u != v ==> local[u] != local[v])
      && (!redisUp ==> redis == map[])
    }

    ghost function MemoryOf(user: string): Memory
      reads this, local.Values
    {
      Memory(if user in redis then Some(redis[user]) else None,
             if user in local then local[user].View() else FRESH)
    }

    constructor (redisUp: bool)
      ensures Valid() && this.redisUp == redisUp
      ensures forall user :: MemoryOf(user) == NO_MEMORY
    {
      this.redisUp := redisUp;
      redis, local := map[], map[];
    }

    /** A Redis hit builds a new dictionary; a miss hands out the stored one. */
    method GetUserHistory(user: string) returns (hist: HistoryDict)
      requires Valid()
      modifies this`local
      ensures Valid()
      ensures hist.View() == Loaded(redisUp, old(MemoryOf(user)), false)
      ensures if redisUp && user in redis then fresh(hist) && local == old(local)
              else user in local && local[user] == hist && local == old(local)[user := hist]
                   && (if user in old(local) then old(local)[user] == hist else fresh(hist))
    {
      if redisUp && user in redis {
        hist := new HistoryDict(UserHistories.Restore(redis[user]));
        return;
      }
      if user !in local {
        var blank := new HistoryDict(FRESH);
        local := local[user := blank];
      }
      hist := local[user];
    }

    method SaveUserHistory(user: string, hist: HistoryDict)
      modifies this`redis, this`local
      ensures redisUp ==> redis == old(redis)[user := hist.View()] && local == old(local)
      ensures !redisUp ==> local == old(local)[user := hist] && redis == old(redis)
    {
      if redisUp {
        redis := redis[user := hist.View()];
      } else {
        local := local[user := hist];
      }
    }

    /** The hour since the user's history was saved passes. */
    method Expire(user: string)
      requires Valid()
      modifies this`redis
      ensures Valid() && redis == old(redis) - {user}
    {
      redis := redis - {user};
    }

    /** One event of a user takes one step of that user's memory and leaves everyone else's alone. */
    method EngineerSingleEvent(user: string, a: Arrival)
      requires Valid()
      modifies this`redis, this`local, local.Values
      ensures Valid()
      ensures MemoryOf(user) == Observe(redisUp, old(MemoryOf(user)), a)
      ensures forall other :: other != user ==> MemoryOf(other) == old(MemoryOf(other))
    {
      if a.expired {
        Expire(user);
      }
      var hist := GetUserHistory(user);
      hist.Update(a.event);
      SaveUserHistory(user, hist);
    }
  }
}
