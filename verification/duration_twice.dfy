/** Standardizing a standardized duration again: exactly when that changes nothing. */
module DurationTwice {
  import opened Common
  import opened DurationScan
  import opened Duration
  import opened DurationMeaning

  // ------------------------------------------------------------------ what the scanner finds in written parts

  lemma {:induction false} StripNothing(s: string)
    requires s == "" || s[0] != '0'
    ensures StripZeros(s) == s
  {
  }

  function Magnitude(n: int): nat { if n < 0 then -n else n }

  ghost predicate DashNext(rest: seq<Part>) { rest != [] && rest[0].n < 0 }

  /** The token of a part: none for zero; the dash of a negative number after it sticks to its unit. */
  function TokensOf(p: Part, dash: bool): seq<Token> {
    if p.n == 0 then [] else [Token(Format(Magnitude(p.n)), p.unit + if dash then "-" else "")]
  }

  ghost function TokensOfAll(ps: seq<Part>): seq<Token> {
    if ps == [] then [] else TokensOf(ps[0], DashNext(ps[1..])) + TokensOfAll(ps[1..])
  }

  lemma StripFormat(n: nat)
    ensures StripZeros(Format(n)) == if n == 0 then "" else Format(n)
  {
    FormatIs(n);
    if n == 0 {
      assert Format(0) == "0" && "0"[1..] == "";
    } else {
      StripNothing(Format(n));
    }
  }

  lemma ScanAfterDash(r: string)
    requires r != "" && r[0] == '-'
    ensures Scan(r) == Scan(r[1..])
  {
  }

  lemma {:induction false} ScanRuns(s: string, digits: string, quantity: string, unit: string, rest: string)
    requires s != "" && IsDigit(s[0]) && DigitRun(s) == digits && UnitRun(s[|digits|..]) == unit && unit != ""
    requires s[|digits| + |unit|..] == rest && StripZeros(digits) == quantity
    ensures Scan(s) == (if quantity == "" then [] else [Token(quantity, unit)]) + Scan(rest)
  {
    var later := Scan(rest);
    assert Scan(s) == if quantity == "" then later else [Token(quantity, unit)] + later by { ScanOfRun(s); }
    assert [] + later == later;
  }

  lemma RunsOfPiece(n: nat, u: string, r: string, v: string)
    requires u != "" && UnitChars(u) && v == UnitRun(r)
    ensures var s, d := Format(n) + u + r, Format(n);
            && s != "" && IsDigit(s[0]) && DigitRun(s) == d && UnitRun(s[|d|..]) == u + v && u + v != ""
            && s[|d| + |u + v|..] == r[|v|..]
  {
    PieceParts(n, u, r);
    DropBoth(Format(n), u, r, v);
  }

  lemma DropBoth(d: string, u: string, r: string, v: string)
    requires |v| <= |r|
    ensures (d + u + r)[|d| + |u + v|..] == r[|v|..]
  {
  }

  /** A number and its unit in front of the rest: the unit runs up to the next digit. */
  lemma {:induction false} ScanUpTo(n: nat, u: string, r: string, v: string)
    requires u != "" && UnitChars(u) && v == UnitRun(r)
    ensures Scan(Format(n) + u + r) == (if n == 0 then [] else [Token(Format(n), u + v)]) + Scan(r[|v|..])
  {
    var s, rest := Format(n) + u + r, r[|v|..];
    RunsOfPiece(n, u, r, v);
    StripFormat(n);
    FormatIs(n);
    ScanRuns(s, Format(n), if n == 0 then "" else Format(n), u + v, rest);
  }

  /** The rest starts with a digit, a dash or not at all. */
  lemma {:induction false} ScanPiece(n: nat, u: string, r: string, dash: bool)
    requires u != "" && UnitChars(u)
    requires if dash then |r| >= 2 && r[0] == '-' && IsDigit(r[1]) else StartsDigit(r)
    ensures Scan(Format(n) + u + r) == TokensOf(Part(n, u), dash) + Scan(r)
  {
    if dash {
      RunsAtDash(r);
      ScanUpTo(n, u, r, "-");
      ScanAfterDash(r);
    } else {
      RunsAtDigit(r);
      ScanUpTo(n, u, r, "");
      assert r[0..] == r;
    }
  }

  lemma {:induction false} ScanSigned(n: int, u: string, r: string, dash: bool)
    requires u in STANDARD_UNITS
    requires if dash then |r| >= 2 && r[0] == '-' && IsDigit(r[1]) else StartsDigit(r)
    ensures Scan(FormatInt(n) + u + r) == TokensOf(Part(n, u), dash) + Scan(r)
  {
    SignInFront(n, u, r);
    StandardUnitIs(u);
    ScanPiece(Magnitude(n), u, r, dash);
    if n < 0 {
      var s := FormatInt(n) + u + r;
      assert s[1..] == Format(-n) + u + r;
      ScanAfterDash(s);
    } else {
      assert "" + (FormatInt(n) + u + r) == FormatInt(n) + u + r;
    }
  }

  lemma {:induction false} ScanWritten(ps: seq<Part>)
    requires Standard(ps)
    ensures Scan(Written(ps)) == TokensOfAll(ps)
  {
    if ps != [] {
      WrittenFirst(ps);
      WrittenStarts(ps[1..]);
      ScanSigned(ps[0].n, ps[0].unit, Written(ps[1..]), DashNext(ps[1..]));
      ScanWritten(ps[1..]);
    }
  }

  ghost predicate Clean(s: string) { forall n :: 0 <= n < |s| ==> s[n] != 'a' && s[n] != ' ' }

  lemma {:induction false} CleanStays(s: string)
    requires Clean(s)
    ensures RemoveAnd(s) == s && RemoveSpaces(s) == s
  {
    if s != "" {
      CleanStays(s[1..]);
      assert s == [s[0]] + s[1..];
    }
  }

  lemma {:induction false} WrittenIsClean(ps: seq<Part>)
    requires Standard(ps)
    ensures Clean(Written(ps))
  {
    if ps != [] {
      FormatIs(Magnitude(ps[0].n));
      StandardUnitIs(ps[0].unit);
      WrittenIsClean(ps[1..]);
    }
  }

  lemma TokensOfWritten(ps: seq<Part>)
    requires Standard(ps)
    ensures Tokens(Written(ps)) == TokensOfAll(ps)
  {
    WrittenIsClean(ps);
    CleanStays(Written(ps));
    ScanWritten(ps);
  }

  // ------------------------------------------------------------------ what is written the second time

  ghost predicate AllPositive(ps: seq<Part>) { forall k :: 0 <= k < |ps| ==> ps[k].n >= 1 }

  /** The second text of one part is shorter, unless the number is positive. */
  lemma TextAgain(p: Part, dash: bool)
    requires p.unit in STANDARD_UNITS
    requires KnownUnits(TokensOf(p, dash)) && InRange(TokensOf(p, dash))
    ensures |Written(Parts(TokensOf(p, dash)))| <= |Text(p)|
    ensures |Written(Parts(TokensOf(p, dash)))| == |Text(p)| ==> p.n >= 1
    ensures p.n >= 1 ==> Parts(TokensOf(p, dash)) == [p]
  {
    var ts := TokensOf(p, dash);
    StandardUnitIs(p.unit);
    if p.n != 0 {
      var t := ts[0];
      assert t in ts;
      FormatIs(Magnitude(p.n));
      DashIsUnknown(p.unit);
      NoWrap(Magnitude(p.n));
      assert p.unit + "" == p.unit;
      assert PartOf(t) == Part(Magnitude(p.n), p.unit);
      assert Parts(ts) == [PartOf(t)];
      WrittenOne(PartOf(t));
    }
  }

  /** A unit with a dash is not known. */
  lemma DashIsUnknown(u: string)
    ensures !Known(u + "-")
  {
    assert (u + "-")[|u|] == '-';
    if Known(u + "-") { KnownUnitIs(u + "-"); }
  }

  lemma PartsOfBoth(ts: seq<Token>, us: seq<Token>)
    ensures Parts(ts + us) == Parts(ts) + Parts(us)
    ensures KnownUnits(ts + us) <==> KnownUnits(ts) && KnownUnits(us)
    ensures InRange(ts + us) <==> InRange(ts) && InRange(us)
  {
    forall t ensures t in ts + us <==> t in ts || t in us {}
  }

  lemma {:induction false} WrittenAgain(ps: seq<Part>)
    requires Standard(ps) && KnownUnits(TokensOfAll(ps)) && InRange(TokensOfAll(ps))
    ensures |Written(Parts(TokensOfAll(ps)))| <= |Written(ps)|
    ensures |Written(Parts(TokensOfAll(ps)))| == |Written(ps)| ==> AllPositive(ps)
  {
    if ps != [] {
      var ts, us := TokensOf(ps[0], DashNext(ps[1..])), TokensOfAll(ps[1..]);
      PartsOfBoth(ts, us);
      WrittenAppend(Parts(ts), Parts(us));
      TextAgain(ps[0], DashNext(ps[1..]));
      WrittenAgain(ps[1..]);
      assert |Written(ps)| == |Text(ps[0])| + |Written(ps[1..])|;
      assert AllPositive(ps[1..]) && ps[0].n >= 1 ==> AllPositive(ps) by {
        assert forall k :: 1 <= k < |ps| ==> ps[k] == ps[1..][k - 1];
      }
    }
  }

  lemma TokenOfPositive(p: Part)
    requires p.unit in STANDARD_UNITS && 1 <= p.n <= MAX_INT64
    ensures TokensOf(p, false) == [Token(Format(p.n), p.unit)]
    ensures KnownUnits(TokensOf(p, false)) && InRange(TokensOf(p, false)) && Parts(TokensOf(p, false)) == [p]
  {
    StandardUnitIs(p.unit);
    FormatIs(p.n);
    assert p.unit + "" == p.unit;
    TextAgain(p, false);
  }

  /** Positive parts stand for themselves. */
  lemma {:induction false} PositiveAgain(ps: seq<Part>)
    requires Standard(ps) && Sized(ps) && AllPositive(ps)
    ensures KnownUnits(TokensOfAll(ps)) && InRange(TokensOfAll(ps)) && Parts(TokensOfAll(ps)) == ps
    ensures forall t :: t in TokensOfAll(ps) ==> t.unit in STANDARD_UNITS
    ensures |TokensOfAll(ps)| == |ps|
  {
    if ps != [] {
      var ts, us := TokensOf(ps[0], false), TokensOfAll(ps[1..]);
      assert !DashNext(ps[1..]);
      PositiveAgain(ps[1..]);
      TokenOfPositive(ps[0]);
      PartsOfBoth(ts, us);
      assert ps == [ps[0]] + ps[1..];
    }
  }

  // ------------------------------------------------------------------ main result

  lemma AgainIffPositive(ps: seq<Part>)
    requires Standard(ps) && Sized(ps) && ps != []
    ensures Standardize(Written(ps)) == Ok(Written(ps)) <==> AllPositive(ps)
  {
    var out, ts := Written(ps), TokensOfAll(ps);
    TokensOfWritten(ps);
    WrittenStarts(ps);
    StandardizeSucceeds(ts);
    if AllPositive(ps) {
      PositiveAgain(ps);
      StandardizeWrites(ts);
    } else if Standardize(out) == Ok(out) {
      StandardizeWrites(ts);
      WrittenAgain(ps);
    }
  }

  /** Main result, for every input standardizing accepts: it accepts its own text again and leaves it
      unchanged if and only if every 64-bit product is positive; the text then has standard units only. */
  lemma StandardizeIsIdempotentIff(input: string, out: string)
    requires input != "" && Standardize(input) == Ok(out)
    ensures Standardize(out) == Ok(out) <==> AllPositive(Parts(Tokens(input)))
    ensures Standardize(out) == Ok(out) ==> forall t :: t in Tokens(out) ==> t.unit in STANDARD_UNITS
  {
    var ts := Tokens(input);
    StandardizeSucceeds(ts);
    StandardizeWrites(ts);
    PartsAreStandard(ts);
    AgainIffPositive(Parts(ts));
    TokensOfWritten(Parts(ts));
    if AllPositive(Parts(ts)) { PositiveAgain(Parts(ts)); }
  }

  /** Tokens of the scanner are numbers of at least one. */
  lemma {:induction false} ScannedQuantities(s: string)
    ensures forall t :: t in Scan(s) ==> Value(t.quantity) >= 1
    decreases |s|
  {
    if s != "" {
      if !IsDigit(s[0]) {
        ScannedQuantities(s[1..]);
      } else {
        ScanOfRun(s);
        var digits := DigitRun(s);
        DigitRunIs(s);
        StripZerosIs(digits);
        var q := StripZeros(digits);
        ScannedQuantities(s[|digits| + |UnitRun(s[|digits|..])|..]);
        if q != "" {
          forall n | 0 <= n < |q| ensures IsDigit(q[n]) { assert q[n] == digits[|digits| - |q| + n]; }
          ValueIsPositive(q);
        }
      }
    }
  }

  lemma FittingIsPositive(t: Token)
    requires Known(t.unit) && Value(t.quantity) >= 1 && Value(t.quantity) * Means(t.unit).times <= MAX_INT64
    ensures PartOf(t).n >= 1
  {
    KnownUnitIs(t.unit);
    ProductIsPositive(Value(t.quantity), Means(t.unit).times);
    NoWrap(Value(t.quantity) * Means(t.unit).times);
  }

  lemma ProductIsPositive(a: nat, b: nat)
    requires a >= 1 && b >= 1
    ensures a * b >= 1
  {
  }

  /** In particular while no product leaves 64 bits. */
  lemma FittingIsIdempotent(input: string, out: string)
    requires input != "" && Standardize(input) == Ok(out)
    requires forall t :: t in Tokens(input) ==> Value(t.quantity) * Means(t.unit).times <= MAX_INT64
    ensures Standardize(out) == Ok(out)
  {
    var ts := Tokens(input);
    StandardizeIsIdempotentIff(input, out);
    StandardizeSucceeds(ts);
    ScannedQuantities(RemoveSpaces(RemoveAnd(input)));
    forall k | 0 <= k < |ts| ensures Parts(ts)[k].n >= 1 {
      assert ts[k] in ts;
      FittingIsPositive(ts[k]);
    }
  }

  /** Empty input is the exception: it becomes a text the expression does not accept. */
  lemma EmptyIsNotAcceptedAgain()
    ensures Standardize("") == Ok("0s") && Standardize("0s") == Err(NoMatch)
  {
    var ps := [Part(0, "s")];
    TokensOfWritten(ps);
    WrittenFirst(ps);
    assert ps[1..] == [] && Written([]) == "";
    assert Written(ps) == "0s";
  }

  // ------------------------------------------------------------------ days alone

  lemma DaysAreClean(d: string)
    requires AllDigits(d)
    ensures Clean(d + "d") && !OnlyNumeric(d + "d")
  {
    var s := d + "d";
    assert s[|d|] == 'd';
    forall n | 0 <= n < |s| ensures s[n] != 'a' && s[n] != ' ' { assert n < |d| ==> IsDigit(d[n]) && s[n] == d[n]; }
  }

  lemma RunsOfDays(d: string)
    requires d != "" && AllDigits(d)
    ensures var s := d + "d";
            s != "" && IsDigit(s[0]) && DigitRun(s) == d && UnitRun(s[|d|..]) == "d" && s[|d| + 1..] == ""
  {
    var s := d + "d";
    assert s[0] == d[0] && IsDigit(d[0]);
    DigitRunConcat(d, "d");
    assert s[|d|..] == "d" && "d"[1..] == "";
  }

  lemma OneToken(n: nat)
    requires n >= 1
    ensures Tokens(Format(n) + "d") == [Token(Format(n), "d")] && !OnlyNumeric(Format(n) + "d")
  {
    var s := Format(n) + "d";
    FormatIs(n);
    DaysAreClean(Format(n));
    CleanStays(s);
    RunsOfDays(Format(n));
    StripNothing(Format(n));
    ScanOfRun(s);
  }

  lemma MeaningOfDay()
    ensures Means("d") == Meaning(24, "h")
  {
    assert "d" !in STANDARD_UNITS;
  }

  /** What any number of days is worth: the 64-bit product's hours, with its sign, or a refusal. */
  lemma DaysAreWorth(n: nat)
    requires 1 <= n <= MAX_INT64
    ensures var h := Wrap64(n * 24);
            && ParseDurationString(Format(n) + "d") == Outcome([Part(h, "h")])
            && Standardize(Format(n) + "d") == Ok(FormatInt(h) + "h")
  {
    var s, t := Format(n) + "d", Token(Format(n), "d");
    OneToken(n);
    FormatIs(n);
    MeaningOfDay();
    assert Parts([t]) == [PartOf(t)];
    DurationMeans(s);
    StandardizeWrites([t]);
    WrittenOne(PartOf(t));
  }

  lemma OneOutcome(h: int)
    requires -TWO_63 <= h <= MAX_INT64
    ensures h == 0 ==> Outcome([Part(h, "h")]) == Ok(0)
    ensures h == -TWO_63 ==> Outcome([Part(h, "h")]) == Err(BadDuration)
  {
    var ps := [Part(h, "h")];
    var us := Unsigned(ps);
    assert us == [Part(if h < 0 then -h else h, "h")] && us[1..] == [] && Sum([]) == 0;
    assert Sum(us) == InNanoseconds(us[0].n, "h") + Sum(us[1..]);
  }

  /** The text of such hours is accepted again and left alone exactly when they are positive. */
  lemma DaysAgainIff(n: nat, h: int)
    requires 1 <= n <= MAX_INT64 && h == Wrap64(n * 24)
    ensures var out := FormatInt(h) + "h";
            Standardize(Format(n) + "d") == Ok(out) && (Standardize(out) == Ok(out) <==> h >= 1)
  {
    DaysAreWorth(n);
    WrapIsSized(n * 24);
    AgainIffPositive([Part(h, "h")]);
    WrittenOne(Part(h, "h"));
  }

  /** A number of days whose product comes round to zero is taken for no time at all. */
  lemma ZeroDays(n: nat)
    requires 1 <= n <= MAX_INT64 && Wrap64(n * 24) == 0
    ensures ParseDurationString(Format(n) + "d") == Ok(0)
  {
    DaysAreWorth(n);
    OneOutcome(0);
  }

  /** One whose product comes round to -2^63 is refused. */
  lemma RefusedDays(n: nat)
    requires 1 <= n <= MAX_INT64 && Wrap64(n * 24) == -TWO_63
    ensures ParseDurationString(Format(n) + "d") == Err(BadDuration)
  {
    DaysAreWorth(n);
    OneOutcome(-TWO_63);
  }

  /** 2^61 days are the one, 2^60 days the other. */
  lemma SuchDaysExist()
    ensures exists n: nat :: 1 <= n <= MAX_INT64 && Wrap64(n * 24) == 0
    ensures exists n: nat :: 1 <= n <= MAX_INT64 && Wrap64(n * 24) == -TWO_63
  {
    assert Wrap64(0x2000_0000_0000_0000 * 24) == 0;
    assert Wrap64(0x1000_0000_0000_0000 * 24) == -TWO_63;
  }
}
