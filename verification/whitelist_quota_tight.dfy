/** The bound with both limits is the best one: for every configuration and every k there is a run that
    reaches it. */
module WhitelistQuotaTight {
  import opened Common
  import opened Whitelist
  import opened WhitelistRuns
  import opened WhitelistQuota

  ghost predicate Reached(w: World, aliases: seq<Alias>, sc: Scope, k: nat) {
    exists ws, ss :: IsRun(ws, ss, aliases) && AtMostInFlight(ws, sc, k) && ws[|ws| - 1] == w
  }

  lemma Onward(w: World, s: Step, aliases: seq<Alias>, sc: Scope, k: nat) returns (d: World)
    requires Reached(w, aliases, sc, k) && Enabled(w, s, aliases)
    requires |InFlight(Next(w, s, aliases), sc)| <= k
    ensures d == Next(w, s, aliases) && Reached(d, aliases, sc, k)
  {
    d := Next(w, s, aliases);
    var ws, ss :| IsRun(ws, ss, aliases) && AtMostInFlight(ws, sc, k) && ws[|ws| - 1] == w;
    var ws', ss' := ws + [d], ss + [s];
    assert IsRun(ws', ss', aliases) by {
      forall j | 0 < j < |ws'| ensures StepsTo(ws', ss', aliases, j) {
        if j < |ws| { assert StepsTo(ws, ss, aliases, j); }
      }
    }
    assert AtMostInFlight(ws', sc, k) && ws'[|ws'| - 1] == d;
  }

  /** A different address for every number. */
  function Address(n: nat): string { seq(n, _ => '1') }

  lemma AddressesDiffer(i: nat, j: nat)
    ensures Address(i) == Address(j) <==> i == j
  {
    assert |Address(i)| == i && |Address(j)| == j;
  }

  /** Whose the i-th add is: always the scope's owner, or a different owner each time. */
  function Who(sc: Scope, i: nat): Owner { if sc.PerUser? then sc.owner else Owner("", Address(i)) }

  predicate Between(lo: nat, i: nat, hi: nat) { lo <= i < hi }

  function Range(lo: nat, hi: nat): set<nat> { set i | lo <= i < hi && Between(lo, i, hi) }

  lemma {:induction false} RangeSize(lo: nat, hi: nat)
    requires lo <= hi
    ensures |Range(lo, hi)| == hi - lo
  {
    if lo < hi {
      RangeSize(lo, hi - 1);
      assert Range(lo, hi) == Range(lo, hi - 1) + {hi - 1};
    }
  }

  function Stored(sc: Scope, a: Alias, i: nat): Row { Row(Who(sc, i), a.uuid, Address(i), Requested, None) }

  function At(sc: Scope, a: Alias, i: nat, stage: Stage): Op { Adding(Who(sc, i), a, Address(i), None, stage) }

  /** Adds 0 to n-1 are stored, adds n to m-1 are past both counts. */
  ghost predicate Shape(w: World, sc: Scope, a: Alias, n: nat, m: nat) {
    && n <= m && a.uuid == sc.uuid
    && w.table.rows.Keys == Range(0, n) && w.ops.Keys == Range(n, m)
    && (forall i :: i in w.table.rows ==> w.table.rows[i] == Stored(sc, a, i))
    && (forall i :: i in w.ops ==> w.ops[i] == At(sc, a, i, TotalCounted))
  }

  lemma ShapeCounts(w: World, sc: Scope, a: Alias, n: nat, m: nat)
    requires Shape(w, sc, a, n, m)
    ensures |ActiveRows(w.table, sc)| == |ActiveIn(w.table, a.uuid)| == n
    ensures |InFlight(w, sc)| == m - n
  {
    RangeSize(0, n);
    RangeSize(n, m);
    assert ActiveRows(w.table, sc) == Range(0, n) == ActiveIn(w.table, a.uuid);
    assert InFlight(w, sc) == Range(n, m);
  }

  /** The owner of the next add has room. */
  lemma OwnerHasRoom(w: World, sc: Scope, a: Alias, n: nat, m: nat)
    requires Shape(w, sc, a, n, m) && n < Admits(a, sc)
    ensures |ActiveOf(w.table, Who(sc, m), a.uuid)| < a.maxPerUser
  {
    if sc.PerUser? {
      ShapeCounts(w, sc, a, n, m);
    } else {
      forall i | i in w.table.rows ensures w.table.rows[i].owner != Who(sc, m) {
        AddressesDiffer(i, m);
        assert Between(0, i, n);
      }
      assert ActiveOf(w.table, Who(sc, m), a.uuid) == {};
    }
  }

  /** One more add, m, gets as far as the given stage. */
  ghost predicate Coming(w: World, d: World, sc: Scope, a: Alias, m: nat, stage: Stage) {
    d == w.(ops := w.ops[m := At(sc, a, m, stage)])
  }

  lemma ComingFlight(w: World, d: World, sc: Scope, a: Alias, m: nat, stage: Stage, k: nat)
    requires Coming(w, d, sc, a, m, stage) && m !in w.ops
    requires |InFlight(w, sc)| < k
    ensures |InFlight(d, sc)| <= k
  {
    assert InFlight(d, sc) <= InFlight(w, sc) + {m};
    SmallerSet(InFlight(d, sc), InFlight(w, sc) + {m});
  }

  lemma LaunchFirst(w: World, sc: Scope, a: Alias, aliases: seq<Alias>, k: nat, m: nat) returns (d: World)
    requires Reached(w, aliases, sc, k) && a in aliases && m !in w.ops && |InFlight(w, sc)| < k
    requires forall id :: id in w.table.rows ==> !w.table.rows[id].status.Blacklisted?
    ensures Reached(d, aliases, sc, k) && Coming(w, d, sc, a, m, NotBlacklisted)
  {
    var s := BeginAdd(m, Who(sc, m), a, Address(m), None);
    ComingFlight(w, Next(w, s, aliases), sc, a, m, NotBlacklisted, k);
    d := Onward(w, s, aliases, sc, k);
  }

  lemma LaunchSecond(w: World, b: World, sc: Scope, a: Alias, aliases: seq<Alias>, k: nat, m: nat) returns (d: World)
    requires Reached(b, aliases, sc, k) && Coming(w, b, sc, a, m, NotBlacklisted)
    requires m !in w.ops && |InFlight(w, sc)| < k
    requires |ActiveOf(w.table, Who(sc, m), a.uuid)| < a.maxPerUser
    ensures Reached(d, aliases, sc, k) && Coming(w, d, sc, a, m, UserCounted)
  {
    d := w.(ops := w.ops[m := At(sc, a, m, UserCounted)]);
    assert Next(b, CountUser(m), aliases) == d;
    ComingFlight(w, d, sc, a, m, UserCounted, k);
    d := Onward(b, CountUser(m), aliases, sc, k);
  }

  lemma LaunchThird(w: World, b: World, sc: Scope, a: Alias, aliases: seq<Alias>, k: nat, m: nat) returns (d: World)
    requires Reached(b, aliases, sc, k) && Coming(w, b, sc, a, m, UserCounted)
    requires m !in w.ops && |InFlight(w, sc)| < k
    requires |ActiveIn(w.table, a.uuid)| < a.maxTotal
    ensures Reached(d, aliases, sc, k) && Coming(w, d, sc, a, m, TotalCounted)
  {
    d := w.(ops := w.ops[m := At(sc, a, m, TotalCounted)]);
    assert Next(b, CountTotal(m), aliases) == d;
    ComingFlight(w, d, sc, a, m, TotalCounted, k);
    d := Onward(b, CountTotal(m), aliases, sc, k);
  }

  lemma Launch(w: World, sc: Scope, a: Alias, aliases: seq<Alias>, k: nat, n: nat, m: nat) returns (d: World)
    requires Reached(w, aliases, sc, k) && Shape(w, sc, a, n, m) && a in aliases
    requires n < Admits(a, sc) && m - n < k
    ensures Reached(d, aliases, sc, k) && Shape(d, sc, a, n, m + 1)
  {
    ShapeCounts(w, sc, a, n, m);
    OwnerHasRoom(w, sc, a, n, m);
    assert !Between(n, m, m);
    d := LaunchFirst(w, sc, a, aliases, k, m);
    d := LaunchSecond(w, d, sc, a, aliases, k, m);
    d := LaunchThird(w, d, sc, a, aliases, k, m);
    forall i ensures i in d.ops.Keys <==> i in Range(n, m + 1) {
      assert Between(n, i, m + 1) <==> Between(n, i, m) || i == m;
    }
  }

  lemma ReachedFlights(w: World, aliases: seq<Alias>, sc: Scope, k: nat)
    requires Reached(w, aliases, sc, k)
    ensures |InFlight(w, sc)| <= k
  {
    var ws, ss :| IsRun(ws, ss, aliases) && AtMostInFlight(ws, sc, k) && ws[|ws| - 1] == w;
    assert |InFlight(ws[|ws| - 1], sc)| <= k;
  }

  lemma Land(w: World, sc: Scope, a: Alias, aliases: seq<Alias>, k: nat, n: nat, m: nat) returns (d: World)
    requires Reached(w, aliases, sc, k) && Shape(w, sc, a, n, m) && n < m
    ensures Reached(d, aliases, sc, k) && Shape(d, sc, a, n + 1, m)
  {
    assert Between(n, n, m) && !Between(0, n, n);
    assert n in w.ops && n !in w.table.rows;
    d := Next(w, InsertRow(n, n), aliases);
    forall i | i in w.table.rows ensures w.table.rows[i].ip != Address(n) {
      assert Between(0, i, n);
      AddressesDiffer(i, n);
    }
    assert InFlight(d, sc) <= InFlight(w, sc);
    SmallerSet(InFlight(d, sc), InFlight(w, sc));
    ReachedFlights(w, aliases, sc, k);
    d := Onward(w, InsertRow(n, n), aliases, sc, k);
    forall i ensures i in d.table.rows.Keys <==> i in Range(0, n + 1) {
      assert Between(0, i, n + 1) <==> Between(0, i, n) || i == n;
    }
    forall i ensures i in d.ops.Keys <==> i in Range(n + 1, m) {
      assert Between(n, i, m) <==> Between(n + 1, i, m) || i == n;
    }
  }

  /** One add after the other fills the alias up to what it admits. */
  lemma {:induction false} Fill(sc: Scope, a: Alias, aliases: seq<Alias>, k: nat, n: nat) returns (w: World)
    requires a in aliases && a.uuid == sc.uuid && k >= 1 && n <= Admits(a, sc)
    ensures Reached(w, aliases, sc, k) && Shape(w, sc, a, n, n)
  {
    if n == 0 {
      w := INITIAL_WORLD;
      assert IsRun([w], [], aliases) && [w][|[w]| - 1] == w;
      assert InFlight(w, sc) == {};
      assert AtMostInFlight([w], sc, k);
    } else {
      w := Fill(sc, a, aliases, k, n - 1);
      w := Launch(w, sc, a, aliases, k, n - 1, n - 1);
      w := Land(w, sc, a, aliases, k, n - 1, n);
    }
  }

  lemma {:induction false} LaunchMany(w: World, sc: Scope, a: Alias, aliases: seq<Alias>, k: nat, n: nat, j: nat)
      returns (d: World)
    requires Reached(w, aliases, sc, k) && Shape(w, sc, a, n, n) && a in aliases
    requires n < Admits(a, sc) && j <= k
    ensures Reached(d, aliases, sc, k) && Shape(d, sc, a, n, n + j)
  {
    d := w;
    if j > 0 {
      d := LaunchMany(w, sc, a, aliases, k, n, j - 1);
      d := Launch(d, sc, a, aliases, k, n, n + j - 1);
    }
  }

  lemma {:induction false} LandAll(w: World, sc: Scope, a: Alias, aliases: seq<Alias>, k: nat, n: nat, m: nat)
      returns (d: World)
    requires Reached(w, aliases, sc, k) && Shape(w, sc, a, n, m)
    ensures Reached(d, aliases, sc, k) && Shape(d, sc, a, m, m)
    decreases m - n
  {
    d := w;
    if n < m {
      d := Land(w, sc, a, aliases, k, n, m);
      d := LandAll(d, sc, a, aliases, k, n + 1, m);
    }
  }

  lemma BoundIsReached(aliases: seq<Alias>, sc: Scope, k: nat) returns (w: World)
    requires k >= 1
    ensures Reached(w, aliases, sc, k) && |ActiveRows(w.table, sc)| == Bound(aliases, sc, k)
  {
    var most := MostAdmitted(aliases, sc);
    if most == 0 {
      w := INITIAL_WORLD;
      assert IsRun([w], [], aliases) && [w][|[w]| - 1] == w;
      assert InFlight(w, sc) == {} && ActiveRows(w.table, sc) == {};
      assert AtMostInFlight([w], sc, k);
    } else {
      var a :| a in aliases && a.uuid == sc.uuid && Admits(a, sc) == most;
      w := Fill(sc, a, aliases, k, most - 1);
      w := LaunchMany(w, sc, a, aliases, k, most - 1, k);
      w := LandAll(w, sc, a, aliases, k, most - 1, most - 1 + k);
      ShapeCounts(w, sc, a, most - 1 + k, most - 1 + k);
    }
  }

  /** Main result, for every configuration, one owner or all, and every k: with at most k adds at once
      between count and end, the active rows never exceed the bound, and some run reaches it. Counting
      inside the insert's transaction does not stop it. */
  lemma BoundIsExact(aliases: seq<Alias>, sc: Scope, k: nat)
    requires k >= 1
    ensures forall w :: Reached(w, aliases, sc, k) ==> |ActiveRows(w.table, sc)| <= Bound(aliases, sc, k)
    ensures exists w :: Reached(w, aliases, sc, k) && |ActiveRows(w.table, sc)| == Bound(aliases, sc, k)
  {
    forall w | Reached(w, aliases, sc, k) ensures |ActiveRows(w.table, sc)| <= Bound(aliases, sc, k) {
      var ws, ss :| IsRun(ws, ss, aliases) && AtMostInFlight(ws, sc, k) && ws[|ws| - 1] == w;
      BoundHolds(ws, ss, aliases, sc, k, |ws| - 1);
    }
    var w := BoundIsReached(aliases, sc, k);
  }

  /** So the largest configured limit is passed by k - 1, and no less, exactly when an alias with that limit
      admits as many rows: its other limit does not come first. */
  lemma LargestIsPassedIff(aliases: seq<Alias>, sc: Scope, k: nat)
    requires k >= 1 && Largest(aliases, sc) >= 1
    ensures (exists w :: Reached(w, aliases, sc, k) && |ActiveRows(w.table, sc)| == Largest(aliases, sc) - 1 + k) <==>
            (exists a :: a in aliases && a.uuid == sc.uuid && Admits(a, sc) == Largest(aliases, sc))
  {
    var most, largest := MostAdmitted(aliases, sc), Largest(aliases, sc);
    BoundIsExact(aliases, sc, k);
    assert most <= largest by {
      if most > 0 {
        var a :| a in aliases && a.uuid == sc.uuid && Admits(a, sc) == most;
        assert most <= Limit(a, sc) <= largest;
      }
    }
    if exists a :: a in aliases && a.uuid == sc.uuid && Admits(a, sc) == largest {
      assert most == largest;
    } else {
      assert Bound(aliases, sc, k) < largest - 1 + k;
    }
  }
}
