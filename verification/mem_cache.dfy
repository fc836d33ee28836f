/** The in-memory key-value store: values with deadlines, and timers that delete keys later, whatever is
    stored under them by then. */
module MemCache {
  import opened Common

  datatype Stored = Stored(value: string, expiresAt: Option<int>)

  /** A delayed deletion of a key. */
  datatype Timer = Timer(key: string, at: int)

  datatype Cache = Cache(store: map<string, Stored>, timers: seq<Timer>, now: int)

  datatype Op =
    | Set(key: string, value: string, ttl: int)
    | Get(key: string)
    | GetDel(key: string)
    | Fire(timer: nat)
    | Advance(dt: nat)

  predicate Expired(s: Stored, now: int) { s.expiresAt.Some? && now > s.expiresAt.value }

  predicate Enabled(c: Cache, op: Op) {
    op.Fire? ==> op.timer < |c.timers| && c.timers[op.timer].at <= c.now
  }

  function Entry(now: int, value: string, ttl: int): Stored {
    Stored(value, if ttl > 0 then Some(now + ttl) else None)
  }

  function Next(c: Cache, op: Op): Cache
    requires Enabled(c, op)
  {
    match op
    case Set(key, value, ttl) =>
      c.(store := c.store[key := Entry(c.now, value, ttl)],
         timers := if ttl > 0 then c.timers + [Timer(key, c.now + ttl)] else c.timers)
    case Get(_) => c
    case GetDel(key) => c.(store := c.store - {key})
    case Fire(k) => c.(store := c.store - {c.timers[k].key}, timers := c.timers[..k] + c.timers[k + 1..])
    case Advance(dt) => c.(now := c.now + dt)
  }

  /** What a read answers. */
  function Answer(store: map<string, Stored>, now: int, op: Op): Option<string> {
    if (op.Get? || op.GetDel?) && op.key in store && !Expired(store[op.key], now) then Some(store[op.key].value)
    else None
  }

  /** Each operation leads from one cache to the next. */
  ghost predicate Leads(cs: seq<Cache>, ops: seq<Op>) {
    && |cs| == |ops| + 1
    && forall k :: 0 <= k < |ops| ==> Enabled(cs[k], ops[k]) && cs[k + 1] == Next(cs[k], ops[k])
  }

  ghost predicate IsRun(cs: seq<Cache>, ops: seq<Op>) {
    Leads(cs, ops) && cs[0].store == map[] && cs[0].timers == []
  }

  // ------------------------------------------------------------------ what a read can answer

  /** The last set of a key among the first n operations. */
  ghost predicate LastSet(ops: seq<Op>, n: nat, key: string, k: nat) {
    && k < n <= |ops| && ops[k].Set? && ops[k].key == key
    && forall j :: k < j < n ==> !(ops[j].Set? && ops[j].key == key)
  }

  lemma {:induction false} StoredIsLastSet(cs: seq<Cache>, ops: seq<Op>, n: nat, key: string) returns (k: nat)
    requires IsRun(cs, ops) && n < |cs| && key in cs[n].store
    ensures LastSet(ops, n, key, k)
    ensures cs[n].store[key] == Entry(cs[k].now, ops[k].value, ops[k].ttl)
    ensures forall j :: k < j < n ==> ops[j] != GetDel(key)
  {
    assert cs[n] == Next(cs[n - 1], ops[n - 1]);
    if ops[n - 1].Set? && ops[n - 1].key == key {
      k := n - 1;
    } else {
      k := StoredIsLastSet(cs, ops, n - 1, key);
    }
  }

  /** Main result, for every sequence of calls, delays and timers: a read that succeeds answers what was set
      last under that key, not after its deadline, and nobody has taken it since. */
  lemma ReadsAnswerLastSet(cs: seq<Cache>, ops: seq<Op>, n: nat) returns (k: nat)
    requires IsRun(cs, ops) && n < |ops| && Answer(cs[n].store, cs[n].now, ops[n]).Some?
    ensures LastSet(ops, n, ops[n].key, k)
    ensures Answer(cs[n].store, cs[n].now, ops[n]) == Some(ops[k].value)
    ensures ops[k].ttl > 0 ==> cs[n].now <= cs[k].now + ops[k].ttl
    ensures forall j :: k < j < n ==> ops[j] != GetDel(ops[n].key)
  {
    k := StoredIsLastSet(cs, ops, n, ops[n].key);
  }

  /** So a value is taken at most once: between two takes of a key that succeed, the key is set. */
  lemma TakesNeedSets(cs: seq<Cache>, ops: seq<Op>, i: nat, j: nat, key: string)
    requires IsRun(cs, ops) && i < j < |ops| && ops[i] == GetDel(key) && ops[j] == GetDel(key)
    requires Answer(cs[i].store, cs[i].now, ops[i]).Some? && Answer(cs[j].store, cs[j].now, ops[j]).Some?
    ensures exists k :: i < k < j && ops[k].Set? && ops[k].key == key
  {
    var k := ReadsAnswerLastSet(cs, ops, j);
    assert k != i;
  }

  // ------------------------------------------------------------------ a plain map with deadlines

  function PlainNext(p: map<string, Stored>, now: int, op: Op): map<string, Stored> {
    match op
    case Set(key, value, ttl) => p[key := Entry(now, value, ttl)]
    case GetDel(key) => p - {key}
    case _ => p
  }

  function Plain(cs: seq<Cache>, ops: seq<Op>, n: nat): map<string, Stored>
    requires n <= |ops| && n < |cs|
  {
    if n == 0 then map[] else PlainNext(Plain(cs, ops, n - 1), cs[n - 1].now, ops[n - 1])
  }

  /** A pending timer of the key is due before the deadline a set now would give it. */
  ghost predicate Endangers(t: Timer, now: int, key: string, ttl: int) {
    t.key == key && (ttl <= 0 || t.at < now + ttl)
  }

  ghost predicate Endangered(c: Cache, key: string, ttl: int) {
    exists t :: t in c.timers && Endangers(t, c.now, key, ttl)
  }

  /** No key is set while such a timer is pending. */
  ghost predicate NoneEndangered(cs: seq<Cache>, ops: seq<Op>) {
    forall n :: 0 <= n < |ops| && n < |cs| && ops[n].Set? ==> !Endangered(cs[n], ops[n].key, ops[n].ttl)
  }

  /** The cache holds only what the plain map holds; what it has lost is at or past its deadline; and no
      pending timer is due before the deadline of its key's entry. */
  ghost predicate Follows(c: Cache, p: map<string, Stored>) {
    && (forall key :: key in c.store ==> key in p && p[key] == c.store[key])
    && (forall key :: key in p && key !in c.store ==> p[key].expiresAt.Some? && p[key].expiresAt.value <= c.now)
    && (forall t :: t in c.timers && t.key in p ==> p[t.key].expiresAt.Some? && p[t.key].expiresAt.value <= t.at)
  }

  lemma FollowsStep(c: Cache, p: map<string, Stored>, op: Op)
    requires Enabled(c, op) && Follows(c, p)
    requires op.Set? ==> !Endangered(c, op.key, op.ttl)
    ensures Follows(Next(c, op), PlainNext(p, c.now, op))
  {
    if op.Fire? {
      assert c.timers[op.timer] in c.timers;
      forall t | t in Next(c, op).timers ensures t in c.timers {}
    }
    if op.Set? {
      forall t | t in c.timers && t.key == op.key ensures op.ttl > 0 && t.at >= c.now + op.ttl {
        assert !Endangers(t, c.now, op.key, op.ttl);
      }
    }
  }

  lemma {:induction false} FollowsAlways(cs: seq<Cache>, ops: seq<Op>, n: nat)
    requires IsRun(cs, ops) && NoneEndangered(cs, ops) && n < |cs|
    ensures Follows(cs[n], Plain(cs, ops, n))
  {
    if n > 0 {
      FollowsAlways(cs, ops, n - 1);
      assert cs[n] == Next(cs[n - 1], ops[n - 1]);
      FollowsStep(cs[n - 1], Plain(cs, ops, n - 1), ops[n - 1]);
    }
  }

  /** Main result. If no set is endangered by a timer still pending for its key, every read answers what
      the plain map answers, except possibly at the very instant of the deadline, when the timer may be
      first. */
  lemma AgreesWithPlainMap(cs: seq<Cache>, ops: seq<Op>, n: nat)
    requires IsRun(cs, ops) && NoneEndangered(cs, ops) && n < |ops| && (ops[n].Get? || ops[n].GetDel?)
    ensures var p, key := Plain(cs, ops, n), ops[n].key;
            || Answer(cs[n].store, cs[n].now, ops[n]) == Answer(p, cs[n].now, ops[n])
            || (key in p && p[key].expiresAt == Some(cs[n].now))
  {
    FollowsAlways(cs, ops, n);
  }

  // ------------------------------------------------------------------ which sets can lose their value early

  /** The operations neither set the key again nor take it. */
  ghost predicate LeavesAlone(ops: seq<Op>, key: string) {
    forall k :: 0 <= k < |ops| ==> !(ops[k].Set? && ops[k].key == key) && ops[k] != GetDel(key)
  }

  /** The value is still to be had at that time. */
  predicate Due(s: Stored, now: int) { s.expiresAt.None? || now < s.expiresAt.value }

  /** Something a set can be followed by makes its value disappear although nobody took or replaced it and
      its deadline has not come. */
  ghost predicate CanBeLost(c: Cache, key: string, value: string, ttl: int) {
    exists cs, ops :: LosesIt(cs, ops, c, key, value, ttl)
  }

  ghost predicate LosesIt(cs: seq<Cache>, ops: seq<Op>, c: Cache, key: string, value: string, ttl: int) {
    && Leads(cs, ops) && cs[0] == Next(c, Set(key, value, ttl)) && LeavesAlone(ops, key)
    && key !in cs[|cs| - 1].store && Due(Entry(c.now, value, ttl), cs[|cs| - 1].now)
  }

  /** The value is there, and no timer of its key is due before its deadline. */
  ghost predicate Safe(c: Cache, key: string, s: Stored) {
    && (key in c.store || !Due(s, c.now))
    && (forall t :: t in c.timers && t.key == key ==> s.expiresAt.Some? && s.expiresAt.value <= t.at)
  }

  lemma SafeStep(c: Cache, op: Op, key: string, s: Stored)
    requires Enabled(c, op) && Safe(c, key, s)
    requires !(op.Set? && op.key == key) && op != GetDel(key)
    ensures Safe(Next(c, op), key, s)
  {
    if op.Fire? {
      assert c.timers[op.timer] in c.timers;
      forall t | t in Next(c, op).timers ensures t in c.timers {}
    }
  }

  lemma {:induction false} SafeAlways(cs: seq<Cache>, ops: seq<Op>, key: string, s: Stored, n: nat)
    requires Leads(cs, ops) && LeavesAlone(ops, key) && Safe(cs[0], key, s) && n < |cs|
    ensures Safe(cs[n], key, s)
  {
    if n > 0 {
      SafeAlways(cs, ops, key, s, n - 1);
      assert cs[n - 1 + 1] == Next(cs[n - 1], ops[n - 1]);
      SafeStep(cs[n - 1], ops[n - 1], key, s);
    }
  }

  /** The endangering timer comes due and fires. */
  lemma TimerTakesIt(c: Cache, key: string, value: string, ttl: int, k: nat)
    requires k < |c.timers| && Endangers(c.timers[k], c.now, key, ttl)
    ensures CanBeLost(c, key, value, ttl)
  {
    var c0 := Next(c, Set(key, value, ttl));
    var t := c.timers[k];
    assert c0.timers[k] == t;
    var dt := if t.at > c.now then t.at - c.now else 0;
    var c1 := Next(c0, Advance(dt));
    var c2 := Next(c1, Fire(k));
    assert Leads([c0, c1, c2], [Advance(dt), Fire(k)]);
    assert LosesIt([c0, c1, c2], [Advance(dt), Fire(k)], c, key, value, ttl);
  }

  /** Main result, for a set in any state: its value can disappear before its deadline if and only if a
      timer still pending for the key is due before that deadline, or there is no deadline. */
  lemma LostIffEndangered(c: Cache, key: string, value: string, ttl: int)
    ensures CanBeLost(c, key, value, ttl) <==> Endangered(c, key, ttl)
  {
    if Endangered(c, key, ttl) {
      var t :| t in c.timers && Endangers(t, c.now, key, ttl);
      var k :| 0 <= k < |c.timers| && c.timers[k] == t;
      TimerTakesIt(c, key, value, ttl, k);
    } else if CanBeLost(c, key, value, ttl) {
      var cs: seq<Cache>, ops :| LosesIt(cs, ops, c, key, value, ttl);
      var s := Entry(c.now, value, ttl);
      forall t | t in cs[0].timers && t.key == key ensures s.expiresAt.Some? && s.expiresAt.value <= t.at {
        assert t in c.timers ==> !Endangers(t, c.now, key, ttl);
      }
      SafeAlways(cs, ops, key, s, |cs| - 1);
    }
  }

  lemma {:induction false} SetIsSafe(cs: seq<Cache>, ops: seq<Op>, i: nat, n: nat, s: Stored)
    requires Leads(cs, ops) && i < n < |cs| && ops[i].Set? && s == Entry(cs[i].now, ops[i].value, ops[i].ttl)
    requires !Endangered(cs[i], ops[i].key, ops[i].ttl) && LeavesAlone(ops[i + 1..n], ops[i].key)
    ensures Safe(cs[n], ops[i].key, s)
  {
    var later, rest := cs[i + 1..n + 1], ops[i + 1..n];
    assert cs[i + 1] == Next(cs[i], ops[i]);
    assert Leads(later, rest) by {
      forall k | 0 <= k < |rest| ensures Enabled(later[k], rest[k]) && later[k + 1] == Next(later[k], rest[k]) {
        assert cs[i + 1 + k + 1] == Next(cs[i + 1 + k], ops[i + 1 + k]);
      }
    }
    forall t | t in later[0].timers && t.key == ops[i].key ensures s.expiresAt.Some? && s.expiresAt.value <= t.at {
      assert t in cs[i].timers ==> !Endangers(t, cs[i].now, ops[i].key, ops[i].ttl);
    }
    SafeAlways(later, rest, ops[i].key, s, n - i - 1);
  }

  /** A read that meets what was set, not taken or set again since, is answered before the deadline if the
      set was not endangered, at the deadline if no timer was first, and never after it. */
  lemma SetIsAnswered(cs: seq<Cache>, ops: seq<Op>, i: nat, n: nat)
    requires IsRun(cs, ops) && i < n < |ops| && ops[i].Set? && LeavesAlone(ops[i + 1..n], ops[i].key)
    requires ops[n] == Get(ops[i].key) || ops[n] == GetDel(ops[i].key)
    ensures (ops[i].ttl <= 0 || cs[n].now < cs[i].now + ops[i].ttl) && !Endangered(cs[i], ops[i].key, ops[i].ttl) ==>
              Answer(cs[n].store, cs[n].now, ops[n]) == Some(ops[i].value)
    ensures ops[i].ttl > 0 && cs[n].now == cs[i].now + ops[i].ttl && ops[i].key in cs[n].store ==>
              Answer(cs[n].store, cs[n].now, ops[n]) == Some(ops[i].value)
    ensures ops[i].ttl > 0 && cs[n].now > cs[i].now + ops[i].ttl ==> Answer(cs[n].store, cs[n].now, ops[n]) == None
  {
    var key := ops[i].key;
    forall j | i < j < n ensures !(ops[j].Set? && ops[j].key == key) && ops[j] != GetDel(key) {
      assert ops[i + 1..n][j - i - 1] == ops[j];
    }
    if !Endangered(cs[i], key, ops[i].ttl) {
      SetIsSafe(cs, ops, i, n, Entry(cs[i].now, ops[i].value, ops[i].ttl));
    }
    if key in cs[n].store {
      var k := StoredIsLastSet(cs, ops, n, key);
      assert k == i;
    }
  }

  /** Only a set with a lifetime starts a timer, and a timer fires once. */
  lemma TimersStartAndEnd(c: Cache, op: Op)
    requires Enabled(c, op)
    ensures !op.Set? && !op.Fire? ==> Next(c, op).timers == c.timers
    ensures op.Set? && op.ttl <= 0 ==> Next(c, op).timers == c.timers
    ensures op.Set? && op.ttl > 0 ==>
              multiset(Next(c, op).timers) == multiset(c.timers) + multiset{Timer(op.key, c.now + op.ttl)}
    ensures op.Fire? ==>
              multiset(c.timers) == multiset(Next(c, op).timers) + multiset{c.timers[op.timer]}
    ensures op.Fire? ==> c.timers[op.timer].key !in Next(c, op).store
  {
    if op.Fire? {
      var k := op.timer;
      assert c.timers == c.timers[..k] + [c.timers[k]] + c.timers[k + 1..];
    }
  }

  // ------------------------------------------------------------------ the store itself

  datatype Value = Text(s: string) | Bytes(b: string) | Other

  datatype ReadError = NotFound | TooLate

  datatype Read = Found(value: string) | Failed(error: ReadError)

  class Provider {
    var kvStore: map<string, Stored>
    var timers: seq<Timer>

    ghost function State(now: int): Cache
      reads this
    {
      Cache(kvStore, timers, now)
    }

    constructor ()
      ensures State(0).store == map[] && timers == []
    {
      kvStore, timers := map[], [];
    }

    method GetKey(key: string, now: int) returns (r: Read)
      ensures r == if key !in kvStore then Failed(NotFound)
                   else if Expired(kvStore[key], now) then Failed(TooLate) else Found(kvStore[key].value)
      ensures (if r.Found? then Some(r.value) else None) == Answer(kvStore, now, Get(key))
    {
      if key !in kvStore { return Failed(NotFound); }
      var entry := kvStore[key];
      if entry.expiresAt.Some? && now > entry.expiresAt.value { return Failed(TooLate); }
      r := Found(entry.value);
    }

    /** A value that is neither a string nor bytes is refused and changes nothing. */
    method SetKey(key: string, value: Value, ttl: int, now: int) returns (ok: bool)
      modifies this
      ensures ok <==> !value.Other?
      ensures !ok ==> State(now) == old(State(now))
      ensures ok ==> State(now) == Next(old(State(now)), Set(key, if value.Text? then value.s else value.b, ttl))
    {
      var text: string;
      match value {
        case Text(s) => text := s;
        case Bytes(b) => text := b;
        case Other => return false;
      }
      var expiresAt := None;
      if ttl > 0 {
        expiresAt := Some(now + ttl);
        timers := timers + [Timer(key, now + ttl)];
      }
      kvStore := kvStore[key := Stored(text, expiresAt)];
      ok := true;
    }

    method GetDelKey(key: string, now: int) returns (r: Read)
      modifies this
      ensures State(now) == Next(old(State(now)), GetDel(key))
      ensures (if r.Found? then Some(r.value) else None) == Answer(old(kvStore), now, GetDel(key))
      ensures r == Failed(NotFound) <==> key !in old(kvStore)
    {
      if key !in kvStore {
        assert kvStore - {key} == kvStore;
        return Failed(NotFound);
      }
      var entry := kvStore[key];
      if entry.expiresAt.Some? && now > entry.expiresAt.value {
        kvStore := kvStore - {key};
        return Failed(TooLate);
      }
      r := Found(entry.value);
      kvStore := kvStore - {key};
    }

    /** A timer whose time has come deletes its key. */
    method TimerFires(k: nat, now: int)
      requires k < |timers| && timers[k].at <= now
      modifies this
      ensures State(now) == Next(old(State(now)), Fire(k))
    {
      kvStore := kvStore - {timers[k].key};
      timers := timers[..k] + timers[k + 1..];
    }
  }
}
