/** One instance's election loop as the server runs it, command by command. Left alone by the other
    instances, it is a run of the protocol in `Leadership`. */
module Election {
  import opened Common
  import opened Jobs
  import opened Leadership

  class RedisServer {
    var key: Key

    constructor ()
      ensures key == Free
    {
      key := Free;
    }

    method RunSetNX(i: Id, now: int, ttl: int, fate: Fate) returns (ok: bool, err: bool)
      modifies this
      ensures key == if fate.NotSent? then old(key) else SetNx(old(key), i, now, ttl)
      ensures err <==> !fate.Answered?
      ensures ok <==> fate.Answered? && !Unexpired(old(key), now)
    {
      if fate.NotSent? { return false, true; }
      ok := !Unexpired(key, now);
      if ok { key := Held(i, now + ttl); }
      if fate.AnswerLost? { return false, true; }
      err := false;
    }

    method RunGet(now: int, answered: bool) returns (holder: Option<Id>)
      ensures holder == if answered && Unexpired(key, now) then Some(key.holder) else None
    {
      holder := if answered && Unexpired(key, now) then Some(key.holder) else None;
    }

    method RunExpire(now: int, ttl: int, fate: Fate)
      modifies this
      ensures key == if fate.NotSent? then old(key) else Expire(old(key), now, ttl)
    {
      if !fate.NotSent? && Unexpired(key, now) { key := key.(expiry := now + ttl); }
    }

    method RunResign(i: Id, now: int, executed: bool)
      modifies this
      ensures key == if executed && HeldBy(old(key), now, i) then Free else old(key)
    {
      if executed && Unexpired(key, now) && key.holder == i { key := Free; }
    }
  }

  /** What the network does to one campaign: when each command runs, when the campaign ends, and the fate
      of each command. */
  datatype Conditions = Conditions(setAt: int, getAt: int, expireAt: int, end: int,
                                   setFate: Fate, getAnswered: bool, expireFate: Fate)
  {
    ghost predicate Ordered() { setAt <= getAt <= expireAt <= end }
  }

  ghost predicate Shows(c: Cluster, i: Id, key: Key, flag: bool) {
    i in c.instances && c.key == key && c.instances[i].isLeader == flag
  }

  lemma RunOneMore(c: Cluster, steps: seq<Step>, s: Step, ttl: int, jobs: seq<Job>)
    requires Run(c, steps, ttl, jobs).Some? && Enabled(Run(c, steps, ttl, jobs).value, s)
    ensures Run(c, steps + [s], ttl, jobs) == Some(Next(Run(c, steps, ttl, jobs).value, s, ttl, jobs))
  {
    var more := steps + [s];
    assert more[..|more| - 1] == steps;
  }

  class Elector {
    const instanceId: Id
    const ttl: int
    const redis: RedisServer
    var isLeader: bool

    constructor (id: Id, ttl: int, redis: RedisServer)
      ensures instanceId == id && this.ttl == ttl && this.redis == redis && !isLeader
    {
      instanceId, this.ttl, this.redis, isLeader := id, ttl, redis, false;
    }

    /** A lost SETNX leaves the flag alone; a free key is taken; an own key is extended; anything else
        lowers the flag. The campaign is a run of the protocol from one pause between campaigns to the next. */
    method Campaign(n: Conditions, ghost c: Cluster, ghost jobs: seq<Job>) returns (ghost steps: seq<Step>)
      requires n.Ordered() && Shows(c, instanceId, redis.key, isLeader)
      requires c.now == n.setAt && c.instances[instanceId].phase.Idle?
      modifies this`isLeader, redis
      ensures var k := old(redis.key);
              var taken := Unexpired(k, n.setAt);
              var own := taken && n.getAnswered && HeldBy(k, n.getAt, instanceId);
              && isLeader == (if !n.setFate.Answered? then old(isLeader) else !taken || own)
              && redis.key == (if n.setFate.NotSent? then k
                               else if !taken then Held(instanceId, n.setAt + ttl)
                               else if n.setFate.Answered? && own && !n.expireFate.NotSent?
                                 then Expire(k, n.expireAt, ttl)
                               else k)
      ensures var d := Run(c, steps, ttl, jobs);
              && d.Some?
              && instanceId in d.value.instances && d.value.key == redis.key
              && d.value.instances[instanceId].isLeader == isLeader
              && d.value.instances[instanceId].phase.Idle?
    {
      ghost var i := instanceId;
      assert Run(c, [], ttl, jobs) == Some(c);
      var ok, err := redis.RunSetNX(instanceId, n.setAt, ttl, n.setFate);
      steps := [SendSetNx(i, n.setFate)];
      RunOneMore(c, [], steps[0], ttl, jobs);
      assert steps == [] + [steps[0]];
      if err { return; }
      steps := Then(c, steps, Advance(n.getAt - n.setAt), jobs);
      if ok {
        isLeader := true;
        steps := Then(c, steps, RaiseFlag(i), jobs);
      } else {
        steps := Renew(n, c, steps, jobs);
      }
    }

    /** The key was taken: extend it if it is this instance's own. `before` leads from c to here. */
    method Renew(n: Conditions, ghost c: Cluster, ghost before: seq<Step>, ghost jobs: seq<Job>)
        returns (ghost steps: seq<Step>)
      requires n.Ordered() && At(c, before, jobs, n.getAt) && PhaseAt(c, before, jobs).Taken?
      modifies this`isLeader, redis
      ensures var own := n.getAnswered && HeldBy(old(redis.key), n.getAt, instanceId);
              && isLeader == own
              && redis.key == if own && !n.expireFate.NotSent? then Expire(old(redis.key), n.expireAt, ttl)
                              else old(redis.key)
      ensures var d := Run(c, steps, ttl, jobs);
              && d.Some?
              && instanceId in d.value.instances && d.value.key == redis.key
              && d.value.instances[instanceId].isLeader == isLeader
              && d.value.instances[instanceId].phase.Idle?
    {
      ghost var i := instanceId;
      var current := redis.RunGet(n.getAt, n.getAnswered);
      steps := Then(c, before, SendGet(i, n.getAnswered), jobs);
      if current == Some(instanceId) {
        isLeader := true;
        steps := Extend(n, c, steps, jobs);
      } else {
        isLeader := false;
        steps := Then(c, steps, LowerFlag(i), jobs);
      }
    }

    method Extend(n: Conditions, ghost c: Cluster, ghost before: seq<Step>, ghost jobs: seq<Job>)
        returns (ghost steps: seq<Step>)
      requires n.Ordered() && At(c, before, jobs, n.getAt) && PhaseAt(c, before, jobs).Own?
      modifies redis
      ensures redis.key == if n.expireFate.NotSent? then old(redis.key) else Expire(old(redis.key), n.expireAt, ttl)
      ensures var d := Run(c, steps, ttl, jobs);
              && d.Some?
              && instanceId in d.value.instances && d.value.key == redis.key
              && d.value.instances[instanceId].isLeader == isLeader
              && d.value.instances[instanceId].phase.Idle?
    {
      ghost var i := instanceId;
      steps := Then(c, before, Advance(n.expireAt - n.getAt), jobs);
      redis.RunExpire(n.expireAt, ttl, n.expireFate);
      steps := Then(c, steps, SendExpire(i, n.expireFate), jobs);
      steps := Then(c, steps, Advance(n.end - n.expireAt), jobs);
      steps := Then(c, steps, EndRenewal(i), jobs);
    }

    /** The steps lead to a cluster that shows this instance and the server as they are, at the given time. */
    ghost predicate At(c: Cluster, steps: seq<Step>, jobs: seq<Job>, now: int)
      reads this, redis
    {
      var d := Run(c, steps, ttl, jobs);
      d.Some? && d.value.now == now && Shows(d.value, instanceId, redis.key, isLeader)
    }

    ghost function PhaseAt(c: Cluster, steps: seq<Step>, jobs: seq<Job>): Phase
      requires Run(c, steps, ttl, jobs).Some? && instanceId in Run(c, steps, ttl, jobs).value.instances
    {
      Run(c, steps, ttl, jobs).value.instances[instanceId].phase
    }

    /** Resigning deletes the key only if it is this instance's own, and always lowers the flag. */
    method Resign(now: int, executed: bool, ghost c: Cluster, ghost jobs: seq<Job>) returns (ghost steps: seq<Step>)
      requires Shows(c, instanceId, redis.key, isLeader) && c.now == now
      requires c.instances[instanceId].phase.Idle? && c.instances[instanceId].done
      modifies this`isLeader, redis
      ensures !isLeader
      ensures redis.key == if old(isLeader) && executed && HeldBy(old(redis.key), now, instanceId) then Free
                           else old(redis.key)
      ensures var d := Run(c, steps, ttl, jobs);
              && d.Some?
              && instanceId in d.value.instances && d.value.key == redis.key
              && d.value.instances[instanceId].isLeader == isLeader
              && d.value.instances[instanceId].phase.Stopped?
    {
      ghost var i := instanceId;
      steps := [];
      assert Run(c, [], ttl, jobs) == Some(c);
      if isLeader {
        redis.RunResign(instanceId, now, executed);
        steps := Then(c, steps, SendResign(i, executed), jobs);
      }
      isLeader := false;
      steps := Then(c, steps, EndResign(i), jobs);
    }

    ghost function Then(c: Cluster, steps: seq<Step>, s: Step, jobs: seq<Job>): (more: seq<Step>)
      requires Run(c, steps, ttl, jobs).Some? && Enabled(Run(c, steps, ttl, jobs).value, s)
      ensures Run(c, more, ttl, jobs) == Some(Next(Run(c, steps, ttl, jobs).value, s, ttl, jobs))
    {
      RunOneMore(c, steps, s, ttl, jobs);
      steps + [s]
    }
  }
}
