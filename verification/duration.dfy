/** Durations as text: turning every unit into one the standard parser knows, and what the result is worth. */
module Duration {
  import opened DurationScan

  datatype Error = NoMatch | BadQuantity | BadUnit | BadDuration

  datatype Result<+T> = Ok(value: T) | Err(error: Error)

  const TWO_63: int := 0x8000_0000_0000_0000
  const MAX_INT64: int := 0x7FFF_FFFF_FFFF_FFFF

  function Wrap64(x: int): int { (x + TWO_63) % (2 * TWO_63) - TWO_63 }

  // ------------------------------------------------------------------ decimal numbers

  function DigitValue(c: char): nat { if IsDigit(c) then c as int - '0' as int else 0 }

  function Value(s: string): nat {
    if s == "" then 0 else 10 * Value(s[..|s| - 1]) + DigitValue(s[|s| - 1])
  }

  function Digit(n: nat): char
    requires n < 10
  {
    ('0' as int + n) as char
  }

  function Format(n: nat): string {
    if n < 10 then [Digit(n)] else Format(n / 10) + [Digit(n % 10)]
  }

  /** `%d` */
  function FormatInt(x: int): string { if x < 0 then "-" + Format(-x) else Format(x) }

  ghost predicate AllDigits(s: string) { forall n :: 0 <= n < |s| ==> IsDigit(s[n]) }

  lemma {:induction false} FormatIs(n: nat)
    ensures var s := Format(n); s != "" && AllDigits(s) && Value(s) == n && (n >= 1 ==> s[0] != '0')
  {
    if n >= 10 {
      FormatIs(n / 10);
      assert Format(n)[..|Format(n)| - 1] == Format(n / 10);
    }
  }

  lemma {:induction false} ValueIsPositive(s: string)
    requires s != "" && AllDigits(s) && s[0] != '0'
    ensures Value(s) >= 1
  {
    if |s| > 1 { ValueIsPositive(s[..|s| - 1]); }
  }

  /** `strconv.Atoi` on digits. */
  function Atoi(s: string): Result<int> {
    if Value(s) <= MAX_INT64 then Ok(Value(s)) else Err(BadQuantity)
  }

  // ------------------------------------------------------------------ units

  const STANDARD_UNITS: seq<string> := ["ns", "us", "\U{00B5}s", "\U{03BC}s", "ms", "s", "m", "h"]

  const HOURS_IN_DAY := 24
  const HOURS_IN_WEEK := HOURS_IN_DAY * 7
  const HOURS_IN_MONTH := HOURS_IN_DAY * 30
  const HOURS_IN_YEAR := HOURS_IN_DAY * 365

  function StandardizeQuantityAndUnits(qty: int, unit: string): Result<string> {
    if unit in STANDARD_UNITS then Ok(FormatInt(qty) + unit)
    else if |unit| == 1 then
      match unit
      case "d" => Ok(FormatInt(Wrap64(qty * HOURS_IN_DAY)) + "h")
      case "w" => Ok(FormatInt(Wrap64(qty * HOURS_IN_WEEK)) + "h")
      case "M" => Ok(FormatInt(Wrap64(qty * HOURS_IN_MONTH)) + "h")
      case "y" => Ok(FormatInt(Wrap64(qty * HOURS_IN_YEAR)) + "h")
      case _ => Err(BadUnit)
    else if unit == "millisecond" || unit == "milliseconds" then Ok(FormatInt(qty) + "ms")
    else if unit == "second" || unit == "seconds" then Ok(FormatInt(qty) + "s")
    else if unit == "minute" || unit == "minutes" then Ok(FormatInt(qty) + "m")
    else if unit == "hour" || unit == "hours" then Ok(FormatInt(qty) + "h")
    else if unit == "day" || unit == "days" then Ok(FormatInt(Wrap64(qty * HOURS_IN_DAY)) + "h")
    else if unit == "week" || unit == "weeks" then Ok(FormatInt(Wrap64(qty * HOURS_IN_WEEK)) + "h")
    else if unit == "month" || unit == "months" then Ok(FormatInt(Wrap64(qty * HOURS_IN_MONTH)) + "h")
    else if unit == "year" || unit == "years" then Ok(FormatInt(Wrap64(qty * HOURS_IN_YEAR)) + "h")
    else Err(BadUnit)
  }

  /** So many of a unit the standard parser knows, in nanoseconds. */
  function InNanoseconds(n: int, unit: string): int {
    if unit == "ns" then n
    else if unit == "us" || unit == "\U{00B5}s" || unit == "\U{03BC}s" then n * 1_000
    else if unit == "ms" then n * 1_000_000
    else if unit == "s" then n * 1_000_000_000
    else if unit == "m" then n * 60_000_000_000
    else if unit == "h" then n * 3_600_000_000_000
    else 0
  }

  /** What a unit stands for: so many of a standard unit; none of the empty unit if it is not known. */
  datatype Meaning = Meaning(times: nat, unit: string)

  function Means(unit: string): Meaning {
    if unit in STANDARD_UNITS then Meaning(1, unit)
    else if unit in ["millisecond", "milliseconds"] then Meaning(1, "ms")
    else if unit in ["second", "seconds"] then Meaning(1, "s")
    else if unit in ["minute", "minutes"] then Meaning(1, "m")
    else if unit in ["hour", "hours"] then Meaning(1, "h")
    else if unit in ["d", "day", "days"] then Meaning(24, "h")
    else if unit in ["w", "week", "weeks"] then Meaning(168, "h")
    else if unit in ["M", "month", "months"] then Meaning(720, "h")
    else if unit in ["y", "year", "years"] then Meaning(8760, "h")
    else Meaning(0, "")
  }

  predicate Known(unit: string) { Means(unit).unit != "" }

  function Worth(t: Token): int {
    InNanoseconds(Value(t.quantity) * Means(t.unit).times, Means(t.unit).unit)
  }

  function Total(ts: seq<Token>): int { if ts == [] then 0 else Worth(ts[0]) + Total(ts[1..]) }

  /** The two agree on one unit; the product is a 64-bit one. */
  ghost predicate Agrees(qty: nat, unit: string) {
    var m := Means(unit);
    && (StandardizeQuantityAndUnits(qty, unit).Ok? <==> Known(unit))
    && (Known(unit) ==>
          StandardizeQuantityAndUnits(qty, unit) == Ok(FormatInt(Wrap64(qty * m.times)) + m.unit))
  }

  lemma NoWrap(x: nat)
    requires x <= MAX_INT64
    ensures Wrap64(x) == x
  {
    SmallMod(x + TWO_63, 2 * TWO_63);
  }

  lemma SmallMod(a: nat, b: nat)
    requires a < b
    ensures a % b == a
  {
  }

  lemma LettersAgree(qty: nat, unit: string)
    requires |unit| == 1 && unit !in STANDARD_UNITS
    ensures Agrees(qty, unit)
  {
    if unit == "d" { assert Means(unit) == Meaning(24, "h"); }
    else if unit == "w" { assert Means(unit) == Meaning(168, "h"); }
    else if unit == "M" { assert Means(unit) == Meaning(720, "h"); }
    else if unit == "y" { assert Means(unit) == Meaning(8760, "h"); }
    else { assert !Known(unit); }
  }

  lemma ShortWordsAgree(qty: nat, unit: string)
    requires qty <= MAX_INT64
    requires unit in ["millisecond", "milliseconds", "second", "seconds", "minute", "minutes", "hour", "hours"]
    ensures Agrees(qty, unit)
  {
    assert unit !in STANDARD_UNITS && |unit| != 1;
    NoWrap(qty);
    assert Means(unit).times == 1 && qty * 1 == qty;
  }

  lemma LongWordsAgree(qty: nat, unit: string)
    requires unit !in STANDARD_UNITS && |unit| != 1
    requires unit !in ["millisecond", "milliseconds", "second", "seconds", "minute", "minutes", "hour", "hours"]
    ensures Agrees(qty, unit)
  {
    if unit == "day" || unit == "days" { assert Means(unit) == Meaning(24, "h"); }
    else if unit == "week" || unit == "weeks" { assert Means(unit) == Meaning(168, "h"); }
    else if unit == "month" || unit == "months" { assert Means(unit) == Meaning(720, "h"); }
    else if unit == "year" || unit == "years" { assert Means(unit) == Meaning(8760, "h"); }
    else { assert !Known(unit); }
  }

  /** The branches of the code are the table. */
  lemma StandardizeMeans(qty: nat, unit: string)
    requires qty <= MAX_INT64
    ensures Agrees(qty, unit)
  {
    if unit in STANDARD_UNITS {
      assert unit != "" && Means(unit) == Meaning(1, unit);
      NoWrap(qty);
      assert qty * 1 == qty;
    } else if |unit| == 1 {
      LettersAgree(qty, unit);
    } else if unit in ["millisecond", "milliseconds", "second", "seconds", "minute", "minutes", "hour", "hours"] {
      ShortWordsAgree(qty, unit);
    } else {
      LongWordsAgree(qty, unit);
    }
  }

  /** Every known unit is so many of a standard one, and has no dash in it. */
  lemma KnownUnitIs(unit: string)
    requires Known(unit)
    ensures Means(unit).unit in STANDARD_UNITS && Means(unit).times >= 1 && '-' !in unit
  {
  }

  // ------------------------------------------------------------------ standardizing

  /** `strings.ReplaceAll(s, "and", "")` */
  function RemoveAnd(s: string): string
    decreases |s|
  {
    if s == "" then ""
    else if "and" <= s then RemoveAnd(s[3..])
    else [s[0]] + RemoveAnd(s[1..])
  }

  function RemoveSpaces(s: string): string {
    if s == "" then "" else (if s[0] == ' ' then "" else [s[0]]) + RemoveSpaces(s[1..])
  }

  function Tokens(input: string): seq<Token> { Scan(RemoveSpaces(RemoveAnd(input))) }

  function StandardizeTokens(ts: seq<Token>): Result<string> {
    if ts == [] then Ok("")
    else
      var last := ts[|ts| - 1];
      match StandardizeTokens(ts[..|ts| - 1])
      case Err(e) => Err(e)
      case Ok(before) =>
        match Atoi(last.quantity)
        case Err(e) => Err(e)
        case Ok(q) =>
          match StandardizeQuantityAndUnits(q, last.unit)
          case Err(e) => Err(e)
          case Ok(o) => Ok(before + o)
  }

  function Standardize(input: string): Result<string> {
    if input == "" then Ok("0s")
    else if Tokens(input) == [] then Err(NoMatch)
    else StandardizeTokens(Tokens(input))
  }

  method StandardizeDurationString(input: string) returns (r: Result<string>)
    ensures r == Standardize(input)
  {
    if input == "" { return Ok("0s"); }
    var matches := Scan(RemoveSpaces(RemoveAnd(input)));
    if |matches| == 0 { return Err(NoMatch); }
    var output := "";
    for k := 0 to |matches|
      invariant StandardizeTokens(matches[..k]) == Ok(output)
    {
      assert matches[..k + 1][..k] == matches[..k];
      var q := Atoi(matches[k].quantity);
      if q.Err? {
        ErrorsStay(matches, k + 1, q.error);
        return Err(q.error);
      }
      var o := StandardizeQuantityAndUnits(q.value, matches[k].unit);
      if o.Err? {
        ErrorsStay(matches, k + 1, o.error);
        return Err(o.error);
      }
      output := output + o.value;
    }
    assert matches[..|matches|] == matches;
    r := Ok(output);
  }

  /** The first error is the answer. */
  lemma {:induction false} ErrorsStay(ts: seq<Token>, k: nat, e: Error)
    requires k <= |ts| && StandardizeTokens(ts[..k]) == Err(e)
    ensures StandardizeTokens(ts) == Err(e)
    decreases |ts| - k
  {
    if k == |ts| {
      assert ts[..k] == ts;
    } else {
      assert ts[..k + 1][..k] == ts[..k];
      ErrorsStay(ts, k + 1, e);
    }
  }
}
