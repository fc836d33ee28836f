/** Schema migrations run by several instances at once. A script and the record of its version commit
    together or not at all, and the version is a primary key. */
module Migrations {
  import opened Common

  /** The part of a file name before the first underscore. */
  function VersionOf(file: string): string {
    if file == "" || file[0] == '_' then "" else [file[0]] + VersionOf(file[1..])
  }

  /** A version ends at the first underscore, or with the name. */
  lemma {:induction false} VersionEnds(version: string, rest: string)
    requires '_' !in version
    ensures VersionOf(version + "_" + rest) == version == VersionOf(version)
  {
    var file := version + "_" + rest;
    if version != "" {
      assert file[1..] == version[1..] + "_" + rest;
      assert version == [version[0]] + version[1..];
      VersionEnds(version[1..], rest);
    }
  }

  function Versions(files: seq<string>): seq<string> {
    seq(|files|, k requires 0 <= k < |files| => VersionOf(files[k]))
  }

  /** Where one call of `RunMigrations` is.
      - Looking(k): about to ask whether file k's version is recorded, or to return if there is no file k.
      - Applying(k): it was not recorded; the transaction for file k is open.
      - Returned(ok): it has returned, or its process has crashed. */
  datatype Call = Looking(k: nat) | Applying(k: nat) | Returned(ok: bool)

  /** `effects` are the files whose scripts took effect, in that order. */
  datatype System = System(recorded: set<string>, effects: seq<nat>, calls: map<nat, Call>)

  const NEW_SYSTEM := System({}, [], map[])

  datatype Step =
    | Begin(i: nat)
    | Look(i: nat)
    | Commit(i: nat, answered: bool)
    | Return(i: nat)
    | Abort(i: nat)

  predicate Enabled(s: System, step: Step, vs: seq<string>) {
    match step
    case Begin(i) => i !in s.calls
    case Look(i) => i in s.calls && s.calls[i].Looking? && s.calls[i].k < |vs|
    case Commit(i, _) => i in s.calls && s.calls[i].Applying? && s.calls[i].k < |vs|
    case Return(i) => i in s.calls && s.calls[i].Looking? && s.calls[i].k >= |vs|
    case Abort(i) => i in s.calls && !s.calls[i].Returned?
  }

  function Next(s: System, step: Step, vs: seq<string>): System
    requires Enabled(s, step, vs)
  {
    match step
    case Begin(i) => s.(calls := s.calls[i := Looking(0)])
    case Look(i) =>
      var k := s.calls[i].k;
      s.(calls := s.calls[i := if vs[k] in s.recorded then Looking(k + 1) else Applying(k)])
    case Commit(i, answered) =>
      var k := s.calls[i].k;
      if vs[k] in s.recorded then s.(calls := s.calls[i := Returned(false)])
      else System(s.recorded + {vs[k]}, s.effects + [k],
                  s.calls[i := if answered then Looking(k + 1) else Returned(false)])
    case Return(i) => s.(calls := s.calls[i := Returned(true)])
    case Abort(i) => s.(calls := s.calls[i := Returned(false)])
  }

  ghost predicate IsRun(ss: seq<System>, steps: seq<Step>, vs: seq<string>) {
    && |ss| == |steps| + 1
    && ss[0] == NEW_SYSTEM
    && forall n :: 0 <= n < |steps| ==> Enabled(ss[n], steps[n], vs) && ss[n + 1] == Next(ss[n], steps[n], vs)
  }

  // ------------------------------------------------------------------ what is recorded and what took effect

  /** The positions at which a version comes first. */
  function Firsts(vs: seq<string>): seq<nat> {
    if vs == [] then []
    else
      var front := vs[..|vs| - 1];
      Firsts(front) + if vs[|vs| - 1] in front then [] else [|vs| - 1]
  }

  lemma {:induction false} FirstsIncrease(vs: seq<string>)
    ensures forall i :: 0 <= i < |Firsts(vs)| ==> Firsts(vs)[i] < |vs|
    ensures forall i, j :: 0 <= i < j < |Firsts(vs)| ==> Firsts(vs)[i] < Firsts(vs)[j]
  {
    if vs != [] { FirstsIncrease(vs[..|vs| - 1]); }
  }

  /** Versions seen before add nothing. */
  lemma {:induction false} FirstsOfSeen(vs: seq<string>, q: nat, k: nat)
    requires q <= k <= |vs|
    requires ToSet(vs[..k]) <= ToSet(vs[..q])
    ensures Firsts(vs[..k]) == Firsts(vs[..q])
  {
    if q < k {
      var last := vs[k - 1];
      assert vs[..k][..k - 1] == vs[..k - 1];
      assert last in vs[..k];
      assert last in ToSet(vs[..q]) && forall v :: v in vs[..q] ==> v in vs[..k - 1];
      assert vs[..k] == vs[..k - 1] + [last];
      FirstsOfSeen(vs, q, k - 1);
    }
  }

  /** The database is where a single call would have left it after the first q files. */
  ghost predicate AtPrefix(s: System, vs: seq<string>, q: nat) {
    q <= |vs| && s.recorded == ToSet(vs[..q]) && s.effects == Firsts(vs[..q])
  }

  /** Every version before a call's position is recorded. */
  ghost predicate CallOk(s: System, vs: seq<string>, c: Call) {
    match c
    case Looking(k) => k <= |vs| && ToSet(vs[..k]) <= s.recorded
    case Applying(k) => k < |vs| && ToSet(vs[..k]) <= s.recorded
    case Returned(ok) => ok ==> ToSet(vs) <= s.recorded
  }

  ghost predicate Inv(s: System, vs: seq<string>) {
    && (exists q :: AtPrefix(s, vs, q))
    && forall i :: i in s.calls ==> CallOk(s, vs, s.calls[i])
  }

  lemma ToSetGrows(vs: seq<string>, k: nat)
    requires k < |vs|
    ensures ToSet(vs[..k + 1]) == ToSet(vs[..k]) + {vs[k]}
  {
    assert vs[..k + 1] == vs[..k] + [vs[k]];
  }

  lemma FirstsOfNew(vs: seq<string>, k: nat)
    requires k < |vs| && vs[k] !in vs[..k]
    ensures Firsts(vs[..k + 1]) == Firsts(vs[..k]) + [k]
  {
    assert vs[..k + 1][..k] == vs[..k];
  }

  lemma CommitKeepsPrefix(s: System, vs: seq<string>, q: nat, k: nat)
    requires AtPrefix(s, vs, q) && k < |vs| && ToSet(vs[..k]) <= s.recorded && vs[k] !in s.recorded
    ensures AtPrefix(System(s.recorded + {vs[k]}, s.effects + [k], s.calls), vs, k + 1)
  {
    forall n | 0 <= n < q ensures vs[n] in s.recorded { assert vs[n] in vs[..q]; }
    assert q <= k;
    FirstsOfSeen(vs, q, k);
    assert ToSet(vs[..q]) <= ToSet(vs[..k]) by {
      assert forall v :: v in vs[..q] ==> v in vs[..k];
    }
    ToSetGrows(vs, k);
    FirstsOfNew(vs, k);
  }

  lemma InvStep(s: System, step: Step, vs: seq<string>)
    requires Enabled(s, step, vs) && Inv(s, vs)
    ensures Inv(Next(s, step, vs), vs)
  {
    var d := Next(s, step, vs);
    var q :| AtPrefix(s, vs, q);
    if (step.Look? || step.Commit?) && s.calls[step.i].k < |vs| { ToSetGrows(vs, s.calls[step.i].k); }
    assert vs[..|vs|] == vs;
    if step.Commit? && vs[s.calls[step.i].k] !in s.recorded {
      assert CallOk(s, vs, s.calls[step.i]);
      CommitKeepsPrefix(s, vs, q, s.calls[step.i].k);
      assert AtPrefix(d, vs, s.calls[step.i].k + 1);
    } else {
      assert AtPrefix(d, vs, q);
    }
    forall i | i in d.calls ensures CallOk(d, vs, d.calls[i]) {
      assert i in s.calls ==> CallOk(s, vs, s.calls[i]);
    }
  }

  lemma {:induction false} InvAlways(ss: seq<System>, steps: seq<Step>, vs: seq<string>, n: nat)
    requires IsRun(ss, steps, vs) && n < |ss|
    ensures Inv(ss[n], vs)
  {
    if n == 0 {
      assert AtPrefix(ss[0], vs, 0);
    } else {
      InvAlways(ss, steps, vs, n - 1);
      assert ss[n - 1 + 1] == Next(ss[n - 1], steps[n - 1], vs);
      InvStep(ss[n - 1], steps[n - 1], vs);
    }
  }

  /** Main result, for every interleaving of calls that may fail or crash anywhere: the recorded versions
      are those of a prefix of the files; no script takes effect twice, nor out of order, nor for a version
      an earlier file has; and a call that returns without error leaves every version recorded. */
  lemma MigrationsRunOnce(ss: seq<System>, steps: seq<Step>, vs: seq<string>, n: nat) returns (q: nat)
    requires IsRun(ss, steps, vs) && n < |ss|
    ensures AtPrefix(ss[n], vs, q)
    ensures forall i, j :: 0 <= i < j < |ss[n].effects| ==> ss[n].effects[i] < ss[n].effects[j]
    ensures (exists i :: i in ss[n].calls && ss[n].calls[i] == Returned(true)) ==>
              ss[n].recorded == ToSet(vs) && ss[n].effects == Firsts(vs)
  {
    InvAlways(ss, steps, vs, n);
    q :| AtPrefix(ss[n], vs, q);
    FirstsIncrease(vs[..q]);
    if exists i :: i in ss[n].calls && ss[n].calls[i] == Returned(true) {
      var i :| i in ss[n].calls && ss[n].calls[i] == Returned(true);
      assert CallOk(ss[n], vs, ss[n].calls[i]);
      assert vs[..|vs|] == vs;
      AllRecorded(ss[n], vs, q);
    }
  }

  lemma AllRecorded(s: System, vs: seq<string>, q: nat)
    requires AtPrefix(s, vs, q) && ToSet(vs[..|vs|]) <= s.recorded
    ensures s.recorded == ToSet(vs) && s.effects == Firsts(vs)
  {
    assert vs[..|vs|] == vs;
    assert forall v :: v in vs[..q] ==> v in vs;
    FirstsOfSeen(vs, q, |vs|);
  }

  /** So a call without error means every script took effect, each once, exactly when no two files share a
      version. */
  lemma {:induction false} AllScriptsRunIffDistinct(vs: seq<string>)
    ensures |Firsts(vs)| == |vs| <==> Distinct(vs)
    ensures |Firsts(vs)| <= |vs|
    ensures Distinct(vs) ==> Firsts(vs) == seq(|vs|, k => k)
  {
    if vs != [] {
      var front, last := vs[..|vs| - 1], vs[|vs| - 1];
      AllScriptsRunIffDistinct(front);
      if last in front {
        var k :| 0 <= k < |front| && front[k] == last;
        assert vs[k] == vs[|vs| - 1];
      } else if Distinct(front) {
        forall i, j | 0 <= i < j < |vs| ensures vs[i] != vs[j] {
          if j == |vs| - 1 { assert front[i] in front; } else { assert front[i] != front[j]; }
        }
      } else {
        var i, j :| 0 <= i < j < |front| && front[i] == front[j];
        assert vs[i] == vs[j];
      }
    }
  }

  // ------------------------------------------------------------------ what a call does

  /** Each step is possible where it is taken, and they lead from one state to the other. */
  ghost predicate Follows(s: System, steps: seq<Step>, d: System, vs: seq<string>)
    decreases steps
  {
    if steps == [] then d == s
    else Enabled(s, steps[0], vs) && Follows(Next(s, steps[0], vs), steps[1..], d, vs)
  }

  lemma {:induction false} FollowsMore(s: System, step: Step, steps: seq<Step>, d: System, vs: seq<string>)
    requires Enabled(s, step, vs) && Follows(Next(s, step, vs), steps, d, vs)
    ensures Follows(s, [step] + steps, d, vs)
  {
    assert ([step] + steps)[1..] == steps;
  }

  /** From any position a call that meets no failure goes on to its end, whatever was recorded before. */
  lemma {:induction false} GoesThrough(s: System, i: nat, k: nat, vs: seq<string>) returns (steps: seq<Step>, d: System)
    requires i in s.calls && s.calls[i] == Looking(k) && k <= |vs|
    ensures Follows(s, steps, d, vs) && forall t :: t in steps ==> t.i == i
    ensures d.recorded == s.recorded + ToSet(vs[k..]) && d.calls == s.calls[i := Returned(true)]
    decreases |vs| - k
  {
    if k == |vs| {
      steps, d := [Return(i)], Next(s, Return(i), vs);
      FollowsMore(s, Return(i), [], d, vs);
    } else {
      assert vs[k..] == [vs[k]] + vs[k + 1..];
      var a := Next(s, Look(i), vs);
      if vs[k] in s.recorded {
        steps, d := GoesThrough(a, i, k + 1, vs);
      } else {
        var c := Next(a, Commit(i, true), vs);
        steps, d := GoesThrough(c, i, k + 1, vs);
        FollowsMore(a, Commit(i, true), steps, d, vs);
        steps := [Commit(i, true)] + steps;
      }
      FollowsMore(s, Look(i), steps, d, vs);
      steps := [Look(i)] + steps;
    }
  }

  /** So at any time a new call can record every version and return without error. */
  lemma CallAlone(s: System, i: nat, vs: seq<string>) returns (steps: seq<Step>, d: System)
    requires i !in s.calls
    ensures Follows(s, steps, d, vs) && forall t :: t in steps ==> t.i == i
    ensures d.recorded == s.recorded + ToSet(vs) && d.calls == s.calls[i := Returned(true)]
  {
    var b := Next(s, Begin(i), vs);
    steps, d := GoesThrough(b, i, 0, vs);
    FollowsMore(s, Begin(i), steps, d, vs);
    steps := [Begin(i)] + steps;
    assert vs[0..] == vs;
  }

  /** A call that has returned takes no more steps, and no step touches another call. */
  lemma ReturnedIsOver(s: System, step: Step, vs: seq<string>, i: nat)
    requires Enabled(s, step, vs) && i in s.calls && (s.calls[i].Returned? || step.i != i)
    ensures step.i != i
    ensures i in Next(s, step, vs).calls && Next(s, step, vs).calls[i] == s.calls[i]
  {
  }

  /** A script takes effect with the commit of its version, also if the answer to the commit is lost; its
      call then fails, and so does one that finds the version recorded meanwhile or is aborted. */
  lemma OnlyCommitsWrite(s: System, step: Step, vs: seq<string>)
    requires Enabled(s, step, vs)
    ensures !step.Commit? ==> Next(s, step, vs).recorded == s.recorded && Next(s, step, vs).effects == s.effects
    ensures step.Commit? ==>
              var k, d := s.calls[step.i].k, Next(s, step, vs);
              && d.recorded == s.recorded + {vs[k]}
              && d.effects == (if vs[k] in s.recorded then s.effects else s.effects + [k])
              && (d.calls[step.i] == Returned(false) <==> vs[k] in s.recorded || !step.answered)
    ensures step.Abort? ==> Next(s, step, vs).calls[step.i] == Returned(false)
  {
  }

  // ------------------------------------------------------------------ one call

  /** How the calls for one file go: whether the version can be read, and whether its transaction commits. */
  datatype Fortune = Fortune(readable: bool, commits: bool)

  class Database {
    var recorded: set<string>
    var effects: seq<nat>

    ghost function State(): System
      reads this
    {
      System(recorded, effects, map[])
    }

    /** A call on its own takes the database from one prefix to a later one; without error, to the end. */
    method RunMigrations(files: seq<string>, fortunes: seq<Fortune>, ghost q: nat) returns (ok: bool, ghost r: nat)
      requires |fortunes| == |files| && AtPrefix(State(), Versions(files), q)
      modifies this
      ensures AtPrefix(State(), Versions(files), r) && old(effects) <= effects
      ensures ok ==> recorded == ToSet(Versions(files)) && effects == Firsts(Versions(files))
      ensures (forall k :: 0 <= k < |files| ==> fortunes[k] == Fortune(true, true)) ==> ok
    {
      ghost var vs := Versions(files);
      r := q;
      for k := 0 to |files|
        invariant AtPrefix(State(), vs, r) && old(effects) <= effects && ToSet(vs[..k]) <= recorded
      {
        var version := VersionOf(files[k]);
        ToSetGrows(vs, k);
        if !fortunes[k].readable { return false, r; }
        if version in recorded { continue; }
        if !fortunes[k].commits { return false, r; }
        CommitKeepsPrefix(State(), vs, r, k);
        effects, recorded := effects + [k], recorded + {version};
        r := k + 1;
      }
      ok := true;
      AllRecorded(State(), vs, r);
    }
  }
}
