/** Limits under concurrency: the handler counts first and inserts later, so the limit can be passed by
    one less than the number of adds in between, and no further. */
module WhitelistQuota {
  import opened Whitelist
  import opened WhitelistRuns

  /** What a limit is about: one owner's rows for an alias, or all rows for it. */
  datatype Scope = PerUser(owner: Owner, uuid: string) | PerAlias(uuid: string)

  function ActiveRows(t: Table, sc: Scope): set<nat> {
    match sc
    case PerUser(owner, uuid) => ActiveOf(t, owner, uuid)
    case PerAlias(uuid) => ActiveIn(t, uuid)
  }

  /** An add that is past the scope's count and not finished. */
  predicate PastCount(op: Op, sc: Scope) {
    op.Adding? && op.alias.uuid == sc.uuid &&
    match sc
    case PerUser(owner, _) => op.owner == owner && !op.stage.NotBlacklisted?
    case PerAlias(_) => op.stage.TotalCounted?
  }

  function InFlight(w: World, sc: Scope): set<nat> {
    set p | p in w.ops && PastCount(w.ops[p], sc)
  }

  function Limit(a: Alias, sc: Scope): int {
    if sc.PerUser? then a.maxPerUser else a.maxTotal
  }

  /** The largest limit configured for the scope's alias, 0 if there is none. */
  function Largest(aliases: seq<Alias>, sc: Scope): (m: nat)
    ensures forall a :: a in aliases && a.uuid == sc.uuid ==> Limit(a, sc) <= m
    ensures m > 0 ==> exists a :: a in aliases && a.uuid == sc.uuid && Limit(a, sc) == m
  {
    if aliases == [] then 0
    else
      var rest := Largest(aliases[1..], sc);
      if aliases[0].uuid == sc.uuid && Limit(aliases[0], sc) > rest then Limit(aliases[0], sc) else rest
  }

  ghost predicate WithinQuota(w: World, sc: Scope, aliases: seq<Alias>, k: nat) {
    |ActiveRows(w.table, sc)| + |InFlight(w, sc)| <= Largest(aliases, sc) - 1 + k
  }

  lemma SmallerSet<T>(a: set<T>, b: set<T>)
    requires a <= b
    ensures |a| <= |b|
  {
    assert b == a + (b - a);
  }

  /** Aliases in flight are configured ones. */
  ghost predicate KnownAliases(w: World, aliases: seq<Alias>) {
    forall p :: p in w.ops && w.ops[p].Adding? ==> w.ops[p].alias in aliases
  }

  lemma AliasesStep(w: World, s: Step, aliases: seq<Alias>)
    requires Enabled(w, s, aliases) && KnownAliases(w, aliases)
    ensures KnownAliases(Next(w, s, aliases), aliases)
  {
  }

  /** Only an insert adds an active row, and it ends its own add. */
  lemma RowsAndFlights(w: World, s: Step, aliases: seq<Alias>, sc: Scope)
    requires Enabled(w, s, aliases)
    ensures var d := Next(w, s, aliases);
            || (ActiveRows(d.table, sc) <= ActiveRows(w.table, sc) && InFlight(d, sc) <= InFlight(w, sc))
            || (s.InsertRow? && s.p in InFlight(w, sc)
                && ActiveRows(d.table, sc) <= ActiveRows(w.table, sc) + {s.id}
                && InFlight(d, sc) <= InFlight(w, sc) - {s.p})
            || ((s.CountUser? || s.CountTotal?) && d.table == w.table && w.ops[s.p].alias.uuid == sc.uuid
                && |ActiveRows(w.table, sc)| < Limit(w.ops[s.p].alias, sc))
  {
    var d := Next(w, s, aliases);
    match s
    case InsertRow(p, id) =>
      var op := w.ops[p];
      assert InFlight(d, sc) == InFlight(w, sc) - {p};
      if PastCount(op, sc) {
        assert ActiveRows(d.table, sc) <= ActiveRows(w.table, sc) + {id};
      } else {
        assert ActiveRows(d.table, sc) <= ActiveRows(w.table, sc);
      }
    case _ =>
  }

  lemma QuotaStep(w: World, s: Step, aliases: seq<Alias>, sc: Scope, k: nat)
    requires Enabled(w, s, aliases) && KnownAliases(w, aliases)
    requires WithinQuota(w, sc, aliases, k) && |InFlight(Next(w, s, aliases), sc)| <= k
    ensures WithinQuota(Next(w, s, aliases), sc, aliases, k)
  {
    var d := Next(w, s, aliases);
    RowsAndFlights(w, s, aliases, sc);
    if ActiveRows(d.table, sc) <= ActiveRows(w.table, sc) && InFlight(d, sc) <= InFlight(w, sc) {
      SmallerSet(ActiveRows(d.table, sc), ActiveRows(w.table, sc));
      SmallerSet(InFlight(d, sc), InFlight(w, sc));
    } else if s.InsertRow? {
      SmallerSet(ActiveRows(d.table, sc), ActiveRows(w.table, sc) + {s.id});
      SmallerSet(InFlight(d, sc), InFlight(w, sc) - {s.p});
    }
  }

  /** Never more than k adds at once between their count for the scope and their end. */
  ghost predicate AtMostInFlight(ws: seq<World>, sc: Scope, k: nat) {
    forall j :: 0 <= j < |ws| ==> |InFlight(ws[j], sc)| <= k
  }

  /** Main result, for every interleaving: active rows and adds in flight together never pass the largest
      configured limit by more than k - 1. */
  lemma {:induction false} QuotaHolds(ws: seq<World>, ss: seq<Step>, aliases: seq<Alias>, sc: Scope, k: nat, n: nat)
    requires IsRun(ws, ss, aliases) && AtMostInFlight(ws, sc, k) && k >= 1 && n < |ws|
    ensures WithinQuota(ws[n], sc, aliases, k) && KnownAliases(ws[n], aliases)
  {
    if n == 0 {
      assert ActiveRows(ws[0].table, sc) == {} && InFlight(ws[0], sc) == {};
    } else {
      QuotaHolds(ws, ss, aliases, sc, k, n - 1);
      assert StepsTo(ws, ss, aliases, n);
      AliasesStep(ws[n - 1], ss[n - 1], aliases);
      QuotaStep(ws[n - 1], ss[n - 1], aliases, sc, k);
    }
  }

  // ------------------------------------------------------------------ both limits together

  /** How many rows of the scope an alias lets in one at a time: of one owner, what both limits allow; of
      all, the total, unless it lets in no owner at all. */
  function Admits(a: Alias, sc: Scope): int {
    if sc.PerUser? then (if a.maxPerUser <= a.maxTotal then a.maxPerUser else a.maxTotal)
    else if a.maxPerUser >= 1 then a.maxTotal
    else 0
  }

  function MostAdmitted(aliases: seq<Alias>, sc: Scope): (m: nat)
    ensures forall a :: a in aliases && a.uuid == sc.uuid ==> Admits(a, sc) <= m
    ensures m > 0 ==> exists a :: a in aliases && a.uuid == sc.uuid && Admits(a, sc) == m
  {
    if aliases == [] then 0
    else
      var rest := MostAdmitted(aliases[1..], sc);
      if aliases[0].uuid == sc.uuid && Admits(aliases[0], sc) > rest then Admits(aliases[0], sc) else rest
  }

  /** What at most k adds at once can make of it. */
  function Bound(aliases: seq<Alias>, sc: Scope, k: nat): int {
    var m := MostAdmitted(aliases, sc);
    if m == 0 then 0 else m - 1 + k
  }

  /** An add that is past the tighter of the counts that limit the scope. */
  predicate PastTighter(op: Op, sc: Scope) {
    PastCount(op, sc) && (op.stage.TotalCounted? || op.alias.maxPerUser <= op.alias.maxTotal)
  }

  function Committed(w: World, sc: Scope): set<nat> {
    set p | p in w.ops && PastTighter(w.ops[p], sc)
  }

  ghost predicate WithinBound(w: World, sc: Scope, aliases: seq<Alias>, k: nat) {
    |ActiveRows(w.table, sc)| + |Committed(w, sc)| <= Bound(aliases, sc, k)
  }

  /** An add past its owner's count has an alias that lets owners in. */
  ghost predicate OwnersLetIn(w: World) {
    forall p :: p in w.ops && w.ops[p].Adding? && !w.ops[p].stage.NotBlacklisted? ==> w.ops[p].alias.maxPerUser >= 1
  }

  lemma OwnersStep(w: World, s: Step, aliases: seq<Alias>)
    requires Enabled(w, s, aliases) && OwnersLetIn(w)
    ensures OwnersLetIn(Next(w, s, aliases))
  {
  }

  lemma InsertCommits(w: World, s: Step, aliases: seq<Alias>, sc: Scope)
    requires Enabled(w, s, aliases) && s.InsertRow?
    ensures var d := Next(w, s, aliases);
            || (ActiveRows(d.table, sc) <= ActiveRows(w.table, sc) && Committed(d, sc) <= Committed(w, sc))
            || (s.p in Committed(w, sc)
                && ActiveRows(d.table, sc) <= ActiveRows(w.table, sc) + {s.id}
                && Committed(d, sc) <= Committed(w, sc) - {s.p})
  {
    var d := Next(w, s, aliases);
    if PastTighter(w.ops[s.p], sc) {
      assert ActiveRows(d.table, sc) <= ActiveRows(w.table, sc) + {s.id};
    } else {
      assert ActiveRows(d.table, sc) <= ActiveRows(w.table, sc);
    }
  }

  /** An add commits at a count that shows fewer rows than its alias admits. */
  lemma CountCommits(w: World, s: Step, aliases: seq<Alias>, sc: Scope)
    requires Enabled(w, s, aliases) && (s.CountUser? || s.CountTotal?) && OwnersLetIn(w)
    ensures var d := Next(w, s, aliases);
            && d.table == w.table
            && (Committed(d, sc) <= Committed(w, sc)
                || (w.ops[s.p].alias.uuid == sc.uuid && |ActiveRows(w.table, sc)| < Admits(w.ops[s.p].alias, sc)))
  {
    var t, op := w.table, w.ops[s.p];
    assert ActiveOf(t, op.owner, op.alias.uuid) <= ActiveIn(t, op.alias.uuid);
    SmallerSet(ActiveOf(t, op.owner, op.alias.uuid), ActiveIn(t, op.alias.uuid));
  }

  lemma BoundStep(w: World, s: Step, aliases: seq<Alias>, sc: Scope, k: nat)
    requires Enabled(w, s, aliases) && KnownAliases(w, aliases) && OwnersLetIn(w)
    requires WithinBound(w, sc, aliases, k) && |InFlight(Next(w, s, aliases), sc)| <= k
    ensures WithinBound(Next(w, s, aliases), sc, aliases, k)
  {
    var d := Next(w, s, aliases);
    if s.InsertRow? {
      InsertCommits(w, s, aliases, sc);
    } else if s.CountUser? || s.CountTotal? {
      CountCommits(w, s, aliases, sc);
      SmallerSet(Committed(d, sc), InFlight(d, sc));
    } else {
      OthersCommitNothing(w, s, aliases, sc);
    }
    if ActiveRows(d.table, sc) <= ActiveRows(w.table, sc) && Committed(d, sc) <= Committed(w, sc) {
      SmallerSet(ActiveRows(d.table, sc), ActiveRows(w.table, sc));
      SmallerSet(Committed(d, sc), Committed(w, sc));
    } else if s.InsertRow? {
      SmallerSet(ActiveRows(d.table, sc), ActiveRows(w.table, sc) + {s.id});
      SmallerSet(Committed(d, sc), Committed(w, sc) - {s.p});
    }
  }

  lemma OthersCommitNothing(w: World, s: Step, aliases: seq<Alias>, sc: Scope)
    requires Enabled(w, s, aliases) && !s.InsertRow? && !s.CountUser? && !s.CountTotal?
    ensures var d := Next(w, s, aliases);
            ActiveRows(d.table, sc) <= ActiveRows(w.table, sc) && Committed(d, sc) <= Committed(w, sc)
  {
  }

  lemma {:induction false} BoundHolds(ws: seq<World>, ss: seq<Step>, aliases: seq<Alias>, sc: Scope, k: nat, n: nat)
    requires IsRun(ws, ss, aliases) && AtMostInFlight(ws, sc, k) && k >= 1 && n < |ws|
    ensures WithinBound(ws[n], sc, aliases, k) && KnownAliases(ws[n], aliases) && OwnersLetIn(ws[n])
  {
    if n == 0 {
      assert ActiveRows(ws[0].table, sc) == {} && Committed(ws[0], sc) == {};
    } else {
      BoundHolds(ws, ss, aliases, sc, k, n - 1);
      assert StepsTo(ws, ss, aliases, n);
      AliasesStep(ws[n - 1], ss[n - 1], aliases);
      OwnersStep(ws[n - 1], ss[n - 1], aliases);
      BoundStep(ws[n - 1], ss[n - 1], aliases, sc, k);
    }
  }
}
