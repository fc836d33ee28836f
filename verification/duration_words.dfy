/** Spaces and the word "and" in a duration, and the lengths of the units. */
module DurationWords {
  import opened Common
  import opened DurationScan
  import opened Duration
  import opened DurationMeaning
  import opened DurationTwice

  // ------------------------------------------------------------------ spaces

  lemma {:induction false} SpacesConcat(a: string, b: string)
    ensures RemoveSpaces(a + b) == RemoveSpaces(a) + RemoveSpaces(b)
  {
    if a == "" {
      assert a + b == b;
    } else {
      assert (a + b)[1..] == a[1..] + b;
      SpacesConcat(a[1..], b);
    }
  }

  /** A space makes no difference. */
  lemma SpaceIsRemoved(a: string, b: string)
    ensures RemoveSpaces(a + " " + b) == RemoveSpaces(a + b)
  {
    SpacesConcat(a + " ", b);
    SpacesConcat(a, " ");
    SpacesConcat(a, b);
    assert RemoveSpaces(" ") == "" by { assert " "[1..] == ""; }
  }

  lemma {:induction false} NoSpacesStay(s: string)
    ensures ' ' !in RemoveSpaces(s)
    ensures ' ' !in s ==> RemoveSpaces(s) == s
  {
    if s != "" {
      assert s == [s[0]] + s[1..];
      NoSpacesStay(s[1..]);
    }
  }

  // ------------------------------------------------------------------ "and"

  /** An "and" begins at position k. */
  predicate AndAt(s: string, k: nat) { k + 2 < |s| && s[k] == 'a' && s[k + 1] == 'n' && s[k + 2] == 'd' }

  lemma RemoveAndStep(s: string)
    requires s != ""
    ensures AndAt(s, 0) ==> RemoveAnd(s) == RemoveAnd(s[3..])
    ensures !AndAt(s, 0) ==> RemoveAnd(s) == [s[0]] + RemoveAnd(s[1..])
  {
    assert "and" <= s <==> AndAt(s, 0);
  }

  lemma {:induction false} NoAndStays(s: string)
    requires forall k: nat :: !AndAt(s, k)
    ensures RemoveAnd(s) == s
  {
    if s != "" {
      assert !AndAt(s, 0);
      RemoveAndStep(s);
      forall k: nat ensures !AndAt(s[1..], k) { assert !AndAt(s, k + 1); }
      NoAndStays(s[1..]);
    }
  }

  /** An "and" lies across the end of a and the start of b. */
  predicate Straddles(a: string, b: string) {
    || (|a| >= 1 && a[|a| - 1] == 'a' && |b| >= 2 && b[0] == 'n' && b[1] == 'd')
    || (|a| >= 2 && a[|a| - 2] == 'a' && a[|a| - 1] == 'n' && |b| >= 1 && b[0] == 'd')
  }

  lemma StraddlesIff(a: string, b: string)
    ensures Straddles(a, b) <==> exists k: nat :: k < |a| < k + 3 && AndAt(a + b, k)
  {
    if Straddles(a, b) {
      assert AndAt(a + b, |a| - 1) || (|a| >= 2 && AndAt(a + b, |a| - 2));
    }
  }

  lemma AndAcross(a: string, b: string)
    requires a != "" && !Straddles(a, b)
    ensures AndAt(a + b, 0) <==> AndAt(a, 0)
  {
  }

  /** Taking the first "and" off the front. */
  lemma {:induction false} FrontAnd(a: string, b: string)
    requires AndAt(a, 0) && AndAt(a + b, 0)
    requires RemoveAnd(a[3..] + b) == RemoveAnd(a[3..]) + RemoveAnd(b)
    ensures RemoveAnd(a + b) == RemoveAnd(a) + RemoveAnd(b)
  {
    RemoveAndStep(a + b);
    RemoveAndStep(a);
    assert (a + b)[3..] == a[3..] + b;
  }

  lemma {:induction false} CharStep(s: string, t: string, z: string)
    requires s != "" && !AndAt(s, 0) && t == s[1..] && RemoveAnd(t) == z
    ensures RemoveAnd(s) == [s[0]] + z
  {
    RemoveAndStep(s);
  }

  /** Taking the first character off the front. */
  lemma {:induction false} FrontChar(a: string, b: string, x: string, y: string)
    requires a != "" && !AndAt(a, 0) && !AndAt(a + b, 0)
    requires RemoveAnd(a[1..] + b) == x + y && RemoveAnd(a[1..]) == x
    ensures RemoveAnd(a + b) == RemoveAnd(a) + y
  {
    CharStep(a + b, a[1..] + b, x + y);
    CharStep(a, a[1..], x);
    assert [a[0]] + (x + y) == ([a[0]] + x) + y;
  }

  /** Removing works piece by piece where no "and" lies across. */
  lemma {:induction false} AndConcat(a: string, b: string)
    requires !Straddles(a, b)
    ensures RemoveAnd(a + b) == RemoveAnd(a) + RemoveAnd(b)
    decreases |a|
  {
    if a == "" {
      assert a + b == b;
    } else {
      AndAcross(a, b);
      AndConcat(a[if AndAt(a, 0) then 3 else 1..], b);
      if AndAt(a, 0) { FrontAnd(a, b); } else { FrontChar(a, b, RemoveAnd(a[1..]), RemoveAnd(b)); }
    }
  }

  /** A space is in no "and", so pieces on its two sides are apart. */
  lemma SpaceDivides(a: string, b: string)
    ensures RemoveAnd(a + " " + b) == RemoveAnd(a) + " " + RemoveAnd(b)
  {
    assert (a + " ")[|a|] == ' ';
    AndConcat(a + " ", b);
    AndConcat(a, " ");
    OneSpace();
  }

  lemma OneSpace()
    ensures RemoveAnd(" ") == " " && RemoveSpaces(" ") == ""
  {
    RemoveAndStep(" ");
    assert " "[1..] == "" && [' '] + "" == " ";
  }

  /** The word "and" makes no difference either. */
  lemma AndIsRemoved(a: string, b: string)
    requires !Straddles(a, b)
    ensures RemoveAnd(a + "and" + b) == RemoveAnd(a + b)
  {
    var c := "and" + b;
    assert a + "and" + b == a + c && c[0] == 'a' && c[3..] == b;
    AndConcat(a, c);
    RemoveAndStep(c);
    AndConcat(a, b);
  }

  // ------------------------------------------------------------------ what the parser sees

  /** The expression finds the same with or without a space, unless the space keeps an "and" apart. */
  lemma TokensIgnoreSpace(a: string, b: string)
    requires !Straddles(a, b)
    ensures Tokens(a + " " + b) == Tokens(a + b)
  {
    SpaceDivides(a, b);
    AndConcat(a, b);
    SpaceIsRemoved(RemoveAnd(a), RemoveAnd(b));
  }

  lemma TokensIgnoreAnd(a: string, b: string)
    requires !Straddles(a, b)
    ensures Tokens(a + "and" + b) == Tokens(a + b)
  {
    AndIsRemoved(a, b);
  }

  // ------------------------------------------------------------------ the lengths of the units

  lemma UnitLengths(n: int)
    ensures InNanoseconds(n, "ns") == n
    ensures InNanoseconds(n, "us") == InNanoseconds(1000 * n, "ns")
    ensures InNanoseconds(n, "\U{00B5}s") == InNanoseconds(n, "\U{03BC}s") == InNanoseconds(n, "us")
    ensures InNanoseconds(n, "ms") == InNanoseconds(1000 * n, "us")
    ensures InNanoseconds(n, "s") == InNanoseconds(1000 * n, "ms")
    ensures InNanoseconds(n, "m") == InNanoseconds(60 * n, "s")
    ensures InNanoseconds(n, "h") == InNanoseconds(60 * n, "m")
  {
  }

  /** The standard units are those that have a length. */
  lemma StandardIffLength(unit: string)
    ensures unit in STANDARD_UNITS <==> InNanoseconds(1, unit) >= 1
  {
    if unit !in STANDARD_UNITS {
      var us := STANDARD_UNITS;
      assert us[0] in us && us[1] in us && us[2] in us && us[3] in us;
      assert us[4] in us && us[5] in us && us[6] in us && us[7] in us;
    }
  }

  lemma UnitCharsAre(c: char)
    ensures IsUnitChar(c) <==>
              !('0' <= c <= '9') && c != ' ' && c != '\t' && c != '\n' && c != '\r' && c != '\U{000C}'
  {
  }

  // ------------------------------------------------------------------ a plus, a zero

  /** A plus sign in front is read over, and a bare zero needs no unit. */
  lemma SignsAndZero(w: string)
    requires |w| >= 2 && IsDigit(w[0])
    ensures ParseDuration("+" + w) == ParseDuration(w)
    ensures ParseDuration("0") == ParseDuration("-0") == ParseDuration("+0") == Ok(0)
    ensures ParseDuration("") == ParseDuration("-") == Err(BadDuration)
  {
    var s := "+" + w;
    assert s[0] == '+' && s[1..] == w;
    assert "-0"[1..] == "0" && "+0"[1..] == "0" && "-"[1..] == "";
  }

  // ------------------------------------------------------------------ a whole duration in words

  ghost predicate NoAnd(s: string) { forall k: nat :: !AndAt(s, k) }

  /** Digits, a unit and spaces around them. */
  lemma PieceStays(d: string, u: string)
    requires AllDigits(d) && ' ' !in u && NoAnd(u)
    ensures NoAnd(" " + d + " " + u + " ")
    ensures RemoveSpaces(" " + d + " " + u + " ") == d + u
  {
    var s := " " + d + " " + u + " ";
    forall k: nat ensures !AndAt(s, k) {
      if AndAt(s, k) { InUnit(d, u, k); }
    }
    PieceSpaces(d, u);
  }

  lemma InUnit(d: string, u: string, k: nat)
    requires AllDigits(d) && AndAt(" " + d + " " + u + " ", k)
    ensures k >= |d| + 2 && AndAt(u, k - |d| - 2)
  {
    var s := " " + d + " " + u + " ";
    assert forall n :: 1 <= n < |d| + 1 ==> s[n] == d[n - 1] && IsDigit(d[n - 1]);
    assert s[0] == ' ' && s[|d| + 1] == ' ' && s[|s| - 1] == ' ';
    assert forall n :: |d| + 2 <= n < |s| - 1 ==> s[n] == u[n - |d| - 2];
  }

  lemma PieceSpaces(d: string, u: string)
    requires AllDigits(d) && ' ' !in u
    ensures RemoveSpaces(" " + d + " " + u + " ") == d + u
  {
    SpacesConcat(" " + d + " " + u, " ");
    SpaceIsRemoved(" " + d, u);
    assert " " + d + u == " " + (d + u);
    SpacesConcat(" ", d + u);
    OneSpace();
    assert ' ' !in d;
    NoSpacesStay(d + u);
  }

  /** What two pieces with "and" between them are read as. */
  lemma TwoPieces(d: string, u: string, e: string, v: string)
    requires AllDigits(d) && AllDigits(e) && ' ' !in u && ' ' !in v && NoAnd(u) && NoAnd(v)
    ensures RemoveSpaces(RemoveAnd(" " + d + " " + u + " " + "and" + (" " + e + " " + v + " "))) == d + u + (e + v)
  {
    var a, b := " " + d + " " + u + " ", " " + e + " " + v + " ";
    PieceStays(d, u);
    PieceStays(e, v);
    assert a[|a| - 1] == ' ';
    AndIsRemoved(a, b);
    AndConcat(a, b);
    NoAndStays(a);
    NoAndStays(b);
    SpacesConcat(a, b);
  }

  lemma DayAndHour()
    ensures Means("days") == Meaning(24, "h") && Means("hours") == Meaning(1, "h")
    ensures UnitChars("days") && UnitChars("hours") && ' ' !in "days" && ' ' !in "hours"
    ensures NoAnd("days") && NoAnd("hours")
  {
    assert "days" !in STANDARD_UNITS && "hours" !in STANDARD_UNITS;
  }

  lemma {:induction false} ScanTwo(n: nat, u: string, m: nat, v: string)
    requires n >= 1 && m >= 1 && u != "" && v != "" && UnitChars(u) && UnitChars(v)
    ensures Scan(Format(n) + u + (Format(m) + v)) == [Token(Format(n), u), Token(Format(m), v)]
  {
    var r := Format(m) + v;
    assert r == Format(m) + v + "";
    FormatIs(m);
    ScanPiece(m, v, "", false);
    ScanPiece(n, u, r, false);
    assert Scan("") == [] && u + "" == u && v + "" == v;
  }

  lemma {:induction false} DaysAndHoursTokens(n: nat, m: nat)
    requires n >= 1 && m >= 1
    ensures Tokens(" " + Format(n) + " days and " + Format(m) + " hours ") ==
              [Token(Format(n), "days"), Token(Format(m), "hours")]
  {
    FormatIs(n);
    FormatIs(m);
    DayAndHour();
    TwoPieces(Format(n), "days", Format(m), "hours");
    DaysAndHoursText(Format(n), Format(m));
    ScanTwo(n, "days", m, "hours");
  }

  lemma DaysAndHoursText(d: string, e: string)
    ensures " " + d + " days and " + e + " hours " ==
              " " + d + " " + "days" + " " + "and" + (" " + e + " " + "hours" + " ")
  {
    assert " days and " == " " + "days" + " " + "and" + " ";
    assert " hours " == " " + "hours" + " ";
  }

  /** While no product leaves 64 bits a text is worth the sum of its tokens. */
  lemma WorthItsTotal(input: string, ts: seq<Token>)
    requires input != "" && !OnlyNumeric(input) && ts == Tokens(input) && ts != [] && KnownUnits(ts) && InRange(ts)
    requires forall t :: t in ts ==> Value(t.quantity) * Means(t.unit).times <= MAX_INT64
    requires Total(ts) <= MAX_INT64
    ensures ParseDurationString(input) == Ok(Total(ts))
  {
    DurationMeans(input);
  }

  lemma TwoTokens(t: Token, v: Token)
    ensures Total([t, v]) == Worth(t) + Worth(v)
    ensures KnownUnits([t, v]) <==> Known(t.unit) && Known(v.unit)
    ensures InRange([t, v]) <==> Value(t.quantity) <= MAX_INT64 && Value(v.quantity) <= MAX_INT64
  {
    var ts := [t, v];
    assert ts[0] in ts && ts[1] in ts;
    assert ts[1..] == [v] && ts[1..][1..] == [] && Total([]) == 0;
    assert Total([v]) == Worth(v) + Total([v][1..]);
  }

  lemma DayAndHourTokens(n: nat, m: nat) returns (ts: seq<Token>)
    requires (n * 24 + m) * 3_600_000_000_000 <= MAX_INT64
    ensures ts == [Token(Format(n), "days"), Token(Format(m), "hours")]
    ensures KnownUnits(ts) && InRange(ts)
    ensures forall t :: t in ts ==> Value(t.quantity) * Means(t.unit).times <= MAX_INT64
    ensures Total(ts) == (n * 24 + m) * 3_600_000_000_000
  {
    var t, v := Token(Format(n), "days"), Token(Format(m), "hours");
    ts := [t, v];
    FormatIs(n);
    FormatIs(m);
    DayAndHour();
    TwoTokens(t, v);
  }

  /** In words: so many days and so many hours are worth their hours, while these fit. */
  lemma DaysAndHours(n: nat, m: nat)
    requires n >= 1 && m >= 1 && (n * 24 + m) * 3_600_000_000_000 <= MAX_INT64
    ensures ParseDurationString(" " + Format(n) + " days and " + Format(m) + " hours ") ==
              Ok((n * 24 + m) * 3_600_000_000_000)
  {
    var ts := DayAndHourTokens(n, m);
    DaysAndHoursTokens(n, m);
    StartsWithSpace(" " + Format(n) + " days and " + Format(m) + " hours ");
    WorthItsTotal(" " + Format(n) + " days and " + Format(m) + " hours ", ts);
  }

  /** A bare number is so many seconds while their nanoseconds fit, and refused if it does not fit itself. */
  lemma BareSeconds(n: nat)
    ensures ParseDurationString(Format(n)) == Ok(n * 1_000_000_000) <==> n * 1_000_000_000 <= MAX_INT64
    ensures ParseDurationString(Format(n)).Err? <==> n > MAX_INT64
  {
    FormatIs(n);
    assert OnlyNumeric(Format(n));
    BareNumberMeans(Format(n));
  }

  /** No text is no time. */
  lemma EmptyIsZero()
    ensures ParseDurationString("") == Ok(0)
  {
    var ps := [Part(0, "s")];
    assert ps[1..] == [] && Written(ps) == "0s";
    assert "s" in STANDARD_UNITS by { assert STANDARD_UNITS[5] == "s"; }
    ParseWritten(ps);
  }

  lemma StartsWithSpace(s: string)
    requires s != "" && s[0] == ' '
    ensures !OnlyNumeric(s)
  {
    assert !IsDigit(s[0]);
  }
}
