/** What a duration text is worth, products that leave 64 bits included. */
module DurationMeaning {
  import opened Common
  import opened DurationScan
  import opened Duration

  // ------------------------------------------------------------------ the standard parser, without fractions

  /** The text up to the next dot or digit. */
  function UnitText(s: string): (r: string)
    ensures |r| <= |s|
  {
    if s == "" || IsDigit(s[0]) || s[0] == '.' then "" else [s[0]] + UnitText(s[1..])
  }

  /** A number of a unit. */
  datatype Part = Part(n: int, unit: string)

  /** The numbers and units `time.ParseDuration` reads off, if the text is made of them. */
  function ReadParts(s: string): Option<seq<Part>>
    decreases |s|
  {
    if s == "" then Some([])
    else
      var digits := DigitRun(s);
      var unit := UnitText(s[|digits|..]);
      if digits == "" || unit !in STANDARD_UNITS then None
      else
        match ReadParts(s[|digits| + |unit|..])
        case None => None
        case Some(ps) => Some([Part(Value(digits), unit)] + ps)
  }

  /** Their sum, if no number, no part and no sum on the way is past 2^63. */
  function AddUp(ps: seq<Part>, sum: int): Result<int> {
    if ps == [] then Ok(sum)
    else
      var more := sum + InNanoseconds(ps[0].n, ps[0].unit);
      if ps[0].n > TWO_63 || more > TWO_63 then Err(BadDuration) else AddUp(ps[1..], more)
  }

  function ParseUnits(s: string): Result<int> {
    match ReadParts(s)
    case None => Err(BadDuration)
    case Some(ps) => AddUp(ps, 0)
  }

  function ParseDuration(s: string): Result<int> {
    var neg := s != "" && s[0] == '-';
    var rest := if s != "" && (s[0] == '-' || s[0] == '+') then s[1..] else s;
    if rest == "0" then Ok(0)
    else if rest == "" then Err(BadDuration)
    else
      match ParseUnits(rest)
      case Err(e) => Err(e)
      case Ok(sum) => if neg then Ok(-sum) else if sum > MAX_INT64 then Err(BadDuration) else Ok(sum)
  }

  predicate OnlyNumeric(s: string) { s != "" && forall n :: 0 <= n < |s| ==> IsDigit(s[n]) }

  function ParseDurationString(input: string): Result<int> {
    if OnlyNumeric(input) then
      match Atoi(input)
      case Err(e) => Err(e)
      case Ok(seconds) => Ok(Wrap64(InNanoseconds(seconds, "s")))
    else
      match Standardize(input)
      case Err(e) => Err(e)
      case Ok(out) => ParseDuration(out)
  }

  // ------------------------------------------------------------------ what standardizing writes

  ghost predicate KnownUnits(ts: seq<Token>) { forall t :: t in ts ==> Known(t.unit) }

  ghost predicate InRange(ts: seq<Token>) { forall t :: t in ts ==> Value(t.quantity) <= MAX_INT64 }

  /** The 64-bit product of a quantity and its unit's hours, as the code computes it. */
  function PartOf(t: Token): Part { Part(Wrap64(Value(t.quantity) * Means(t.unit).times), Means(t.unit).unit) }

  function Parts(ts: seq<Token>): seq<Part> {
    seq(|ts|, k requires 0 <= k < |ts| => PartOf(ts[k]))
  }

  ghost predicate Standard(ps: seq<Part>) { forall k :: 0 <= k < |ps| ==> ps[k].unit in STANDARD_UNITS }

  ghost predicate Sized(ps: seq<Part>) { forall k :: 0 <= k < |ps| ==> -TWO_63 <= ps[k].n <= MAX_INT64 }

  function Text(p: Part): string { FormatInt(p.n) + p.unit }

  function Written(ps: seq<Part>): string {
    if ps == [] then "" else Text(ps[0]) + Written(ps[1..])
  }

  lemma {:induction false} WrittenAppend(ps: seq<Part>, qs: seq<Part>)
    ensures Written(ps + qs) == Written(ps) + Written(qs)
  {
    if ps == [] {
      assert ps + qs == qs;
    } else {
      assert (ps + qs)[1..] == ps[1..] + qs;
      WrittenAppend(ps[1..], qs);
    }
  }

  lemma WrittenFirst(ps: seq<Part>)
    requires ps != []
    ensures Written(ps) == FormatInt(ps[0].n) + ps[0].unit + Written(ps[1..])
  {
  }

  lemma WrittenOne(p: Part)
    ensures Written([p]) == Text(p)
  {
    assert [p][1..] == [] && Written([]) == "";
  }

  /** Standardizing succeeds exactly when every unit is known and every quantity is a 64-bit number. */
  lemma {:induction false} StandardizeSucceeds(ts: seq<Token>)
    ensures StandardizeTokens(ts).Ok? <==> KnownUnits(ts) && InRange(ts)
  {
    if ts != [] {
      var front, last := ts[..|ts| - 1], ts[|ts| - 1];
      StandardizeSucceeds(front);
      assert ts == front + [last];
      if Value(last.quantity) <= MAX_INT64 { StandardizeMeans(Value(last.quantity), last.unit); }
    }
  }

  lemma PartsGrow(front: seq<Token>, last: Token)
    ensures Written(Parts(front + [last])) == Written(Parts(front)) + Text(PartOf(last))
  {
    assert Parts(front + [last]) == Parts(front) + [PartOf(last)];
    WrittenAppend(Parts(front), [PartOf(last)]);
    WrittenOne(PartOf(last));
  }

  lemma OneMoreStandardized(front: seq<Token>, last: Token, out: string)
    requires StandardizeTokens(front) == Ok(out) && Known(last.unit) && Value(last.quantity) <= MAX_INT64
    ensures StandardizeTokens(front + [last]) == Ok(out + Text(PartOf(last)))
  {
    assert (front + [last])[..|front + [last]| - 1] == front;
    StandardizeMeans(Value(last.quantity), last.unit);
  }

  /** It then writes the parts the tokens mean, in order. */
  lemma {:induction false} StandardizeWrites(ts: seq<Token>)
    requires KnownUnits(ts) && InRange(ts)
    ensures StandardizeTokens(ts) == Ok(Written(Parts(ts)))
  {
    if ts != [] {
      var front, last := ts[..|ts| - 1], ts[|ts| - 1];
      assert ts == front + [last];
      assert last in ts && KnownUnits(front) && InRange(front);
      StandardizeWrites(front);
      OneMoreStandardized(front, last, Written(Parts(front)));
      PartsGrow(front, last);
    }
  }

  lemma WrapIsSized(x: int)
    ensures -TWO_63 <= Wrap64(x) <= MAX_INT64
  {
  }

  lemma PartsAreStandard(ts: seq<Token>)
    requires KnownUnits(ts)
    ensures Standard(Parts(ts)) && Sized(Parts(ts))
  {
    forall k | 0 <= k < |ts|
      ensures Parts(ts)[k].unit in STANDARD_UNITS && -TWO_63 <= Parts(ts)[k].n <= MAX_INT64
    {
      assert ts[k] in ts;
      KnownUnitIs(ts[k].unit);
      WrapIsSized(Value(ts[k].quantity) * Means(ts[k].unit).times);
    }
  }

  // ------------------------------------------------------------------ runs at the front of a text

  ghost predicate StartsDigit(s: string) { s == "" || IsDigit(s[0]) }

  lemma {:induction false} DigitRunConcat(d: string, r: string)
    requires AllDigits(d) && (r == "" || !IsDigit(r[0]))
    ensures DigitRun(d + r) == d
  {
    if d == "" {
      assert d + r == r;
    } else {
      assert (d + r)[1..] == d[1..] + r;
      DigitRunConcat(d[1..], r);
    }
  }

  ghost predicate UnitChars(u: string) { forall n :: 0 <= n < |u| ==> IsUnitChar(u[n]) && u[n] != '.' }

  lemma {:induction false} UnitTextConcat(u: string, r: string)
    requires UnitChars(u)
    ensures UnitText(u + r) == u + UnitText(r)
  {
    if u == "" {
      assert u + r == r;
    } else {
      assert (u + r)[0] == u[0] && (u + r)[1..] == u[1..] + r;
      assert UnitChars(u[1..]);
      UnitTextConcat(u[1..], r);
      assert [u[0]] + (u[1..] + UnitText(r)) == u + UnitText(r);
    }
  }

  lemma {:induction false} UnitRunConcat(u: string, r: string)
    requires UnitChars(u)
    ensures UnitRun(u + r) == u + UnitRun(r)
  {
    if u == "" {
      assert u + r == r;
    } else {
      assert (u + r)[0] == u[0] && (u + r)[1..] == u[1..] + r;
      assert UnitChars(u[1..]);
      UnitRunConcat(u[1..], r);
      assert [u[0]] + (u[1..] + UnitRun(r)) == u + UnitRun(r);
    }
  }

  lemma StandardUnitIs(u: string)
    requires u in STANDARD_UNITS
    ensures u != "" && UnitChars(u) && (forall n :: 0 <= n < |u| ==> u[n] != 'a' && u[n] != ' ')
    ensures Means(u) == Meaning(1, u) && '-' !in u
  {
  }

  /** A number and its unit at the front: the digits end where the unit starts. */
  lemma {:induction false} PieceParts(n: nat, u: string, r: string)
    requires u != "" && UnitChars(u)
    ensures var s, d := Format(n) + u + r, Format(n);
            && s != "" && IsDigit(s[0]) && DigitRun(s) == d && Value(d) == n
            && UnitText(s[|d|..]) == u + UnitText(r) && UnitRun(s[|d|..]) == u + UnitRun(r)
            && s[|d| + |u|..] == r
  {
    var d := Format(n);
    FormatIs(n);
    PieceSlices(d, u, r);
    assert (u + r)[0] == u[0] && !IsDigit(u[0]);
    DigitRunConcat(d, u + r);
    UnitTextConcat(u, r);
    UnitRunConcat(u, r);
  }

  lemma PieceSlices(d: string, u: string, r: string)
    ensures d + u + r == d + (u + r) && (d + u + r)[|d|..] == u + r && (d + u + r)[|d| + |u|..] == r
    ensures d != "" ==> (d + u + r)[0] == d[0]
  {
  }

  /** What is written after a part: nothing, a digit, or the dash of a negative number. */
  lemma WrittenStarts(ps: seq<Part>)
    ensures ps == [] ==> Written(ps) == ""
    ensures ps != [] && ps[0].n >= 0 ==> Written(ps) != "" && IsDigit(Written(ps)[0])
    ensures ps != [] && ps[0].n < 0 ==> |Written(ps)| >= 2 && Written(ps)[0] == '-' && IsDigit(Written(ps)[1])
  {
    if ps != [] { FormatIs(if ps[0].n < 0 then -ps[0].n else ps[0].n); }
  }

  lemma RunsAtDigit(r: string)
    requires StartsDigit(r)
    ensures UnitText(r) == "" && UnitRun(r) == ""
  {
  }

  lemma RunsAtDash(r: string)
    requires |r| >= 2 && r[0] == '-' && IsDigit(r[1])
    ensures UnitText(r) == "-" && UnitRun(r) == "-"
  {
    assert r[1..] != "" && IsDigit(r[1..][0]);
    assert UnitText(r[1..]) == "" && UnitRun(r[1..]) == "";
  }

  // ------------------------------------------------------------------ reading it back

  ghost predicate NoneNegative(ps: seq<Part>) { forall k :: 0 <= k < |ps| ==> ps[k].n >= 0 }

  lemma {:induction false} ReadPiece(n: nat, u: string, r: string)
    requires u in STANDARD_UNITS && StartsDigit(r)
    ensures ReadParts(Format(n) + u + r) ==
              if ReadParts(r).None? then None else Some([Part(n, u)] + ReadParts(r).value)
  {
    StandardUnitIs(u);
    PieceParts(n, u, r);
    RunsAtDigit(r);
    assert u + "" == u;
    FormatIs(n);
  }

  lemma {:induction false} ReadBeforeDash(n: nat, u: string, r: string)
    requires u in STANDARD_UNITS && |r| >= 2 && r[0] == '-' && IsDigit(r[1])
    ensures ReadParts(Format(n) + u + r) == None
  {
    StandardUnitIs(u);
    PieceParts(n, u, r);
    RunsAtDash(r);
    assert (u + "-")[|u|] == '-';
    if u + "-" in STANDARD_UNITS { StandardUnitIs(u + "-"); }
  }

  lemma {:induction false} ReadFirst(p: Part, rest: seq<Part>)
    requires p.unit in STANDARD_UNITS && p.n >= 0
    ensures rest != [] && rest[0].n < 0 ==> ReadParts(Text(p) + Written(rest)) == None
    ensures rest == [] || rest[0].n >= 0 ==>
              var r := ReadParts(Written(rest));
              ReadParts(Text(p) + Written(rest)) == if r.None? then None else Some([p] + r.value)
  {
    WrittenStarts(rest);
    if rest != [] && rest[0].n < 0 {
      ReadBeforeDash(p.n, p.unit, Written(rest));
    } else {
      ReadPiece(p.n, p.unit, Written(rest));
    }
  }

  /** The standard parser reads back exactly the parts that were written, unless a later one is negative:
      then it fails. */
  lemma {:induction false} ReadWritten(ps: seq<Part>)
    requires Standard(ps) && (ps != [] ==> ps[0].n >= 0)
    ensures ReadParts(Written(ps)) == if NoneNegative(ps) then Some(ps) else None
  {
    if ps != [] {
      var rest := ps[1..];
      assert ps == [ps[0]] + rest;
      ReadFirst(ps[0], rest);
      if rest == [] || rest[0].n >= 0 { ReadWritten(rest); }
      assert NoneNegative(ps) <==> NoneNegative(rest);
    }
  }

  function Sum(ps: seq<Part>): int {
    if ps == [] then 0 else InNanoseconds(ps[0].n, ps[0].unit) + Sum(ps[1..])
  }

  ghost predicate Small(ps: seq<Part>) { forall k :: 0 <= k < |ps| ==> 0 <= ps[k].n <= TWO_63 }

  lemma {:induction false} SumIsPositive(ps: seq<Part>)
    requires NoneNegative(ps)
    ensures Sum(ps) >= 0
  {
    if ps != [] { SumIsPositive(ps[1..]); }
  }

  lemma {:induction false} AddUpIsSum(ps: seq<Part>, sum: nat)
    requires Small(ps) && sum <= TWO_63
    ensures AddUp(ps, sum) == if sum + Sum(ps) > TWO_63 then Err(BadDuration) else Ok(sum + Sum(ps))
  {
    if ps != [] {
      var more := sum + InNanoseconds(ps[0].n, ps[0].unit);
      SumIsPositive(ps[1..]);
      if more <= TWO_63 { AddUpIsSum(ps[1..], more); }
    }
  }

  /** The standard parser's own sum: it tests each part by a division before it multiplies. */
  function AddUpDividing(ps: seq<Part>, sum: int): Result<int> {
    if ps == [] then Ok(sum)
    else
      var unit := InNanoseconds(1, ps[0].unit);
      if ps[0].n > TWO_63 || unit < 1 || ps[0].n > TWO_63 / unit then Err(BadDuration)
      else
        var more := sum + ps[0].n * unit;
        if more > TWO_63 then Err(BadDuration) else AddUpDividing(ps[1..], more)
  }

  lemma LargeByDivision(n: nat, unit: string)
    requires unit in STANDARD_UNITS
    ensures InNanoseconds(1, unit) >= 1 && InNanoseconds(n, unit) == n * InNanoseconds(1, unit)
    ensures InNanoseconds(n, unit) > TWO_63 <==> n > TWO_63 / InNanoseconds(1, unit)
  {
  }

  lemma {:induction false} DividingIsTheSame(ps: seq<Part>, sum: nat)
    requires Standard(ps) && NoneNegative(ps)
    ensures AddUpDividing(ps, sum) == AddUp(ps, sum)
  {
    if ps != [] {
      LargeByDivision(ps[0].n, ps[0].unit);
      var more := sum + InNanoseconds(ps[0].n, ps[0].unit);
      if more <= TWO_63 { DividingIsTheSame(ps[1..], more); }
    }
  }

  // ------------------------------------------------------------------ what comes out

  /** A dash can be read only at the very front. */
  ghost predicate LaterNegative(ps: seq<Part>) { exists k :: 1 <= k < |ps| && ps[k].n < 0 }

  /** The parts without that dash. */
  function Unsigned(ps: seq<Part>): seq<Part>
    requires ps != []
  {
    [ps[0].(n := if ps[0].n < 0 then -ps[0].n else ps[0].n)] + ps[1..]
  }

  /** How large the sum may be; a dash in front negates all of it. */
  function Room(ps: seq<Part>): int
    requires ps != []
  {
    if ps[0].n < 0 then TWO_63 else MAX_INT64
  }

  ghost function Outcome(ps: seq<Part>): Result<int>
    requires ps != []
  {
    var sum := Sum(Unsigned(ps));
    if LaterNegative(ps) || sum > Room(ps) then Err(BadDuration) else Ok(if ps[0].n < 0 then -sum else sum)
  }

  lemma UnsignedIs(ps: seq<Part>)
    requires Standard(ps) && Sized(ps) && ps != []
    ensures var us := Unsigned(ps);
            && Standard(us) && us != [] && us[0].n >= 0
            && (NoneNegative(us) <==> !LaterNegative(ps))
            && (NoneNegative(us) ==> Small(us))
  {
    var us := Unsigned(ps);
    assert forall k :: 1 <= k < |ps| ==> us[k] == ps[k];
  }

  lemma SignInFront(n: int, u: string, r: string)
    ensures FormatInt(n) + u + r == (if n < 0 then "-" else "") + (FormatInt(if n < 0 then -n else n) + u + r)
  {
  }

  lemma {:induction false} WrittenUnsigned(ps: seq<Part>)
    requires ps != []
    ensures Written(ps) == (if ps[0].n < 0 then "-" else "") + Written(Unsigned(ps))
  {
    var us := Unsigned(ps);
    assert us[1..] == ps[1..];
    WrittenFirst(ps);
    WrittenFirst(us);
    SignInFront(ps[0].n, ps[0].unit, Written(ps[1..]));
  }

  lemma WrittenIsLong(us: seq<Part>)
    requires Standard(us) && us != [] && us[0].n >= 0
    ensures |Written(us)| >= 2 && IsDigit(Written(us)[0])
  {
    WrittenFirst(us);
    StandardUnitIs(us[0].unit);
    FormatIs(us[0].n);
  }

  /** A sign in front is read before anything else. */
  lemma {:induction false} ParseSigned(w: string, neg: bool)
    requires |w| >= 2 && IsDigit(w[0])
    ensures ParseDuration((if neg then "-" else "") + w) ==
              match ParseUnits(w)
              case Err(e) => Err(e)
              case Ok(sum) => if neg then Ok(-sum) else if sum > MAX_INT64 then Err(BadDuration) else Ok(sum)
  {
    var s := (if neg then "-" else "") + w;
    assert if neg then s[0] == '-' && s[1..] == w else s == w;
  }

  lemma UnitsOf(w: string, us: seq<Part>)
    requires ReadParts(w) == (if NoneNegative(us) then Some(us) else None) && (NoneNegative(us) ==> Small(us))
    ensures ParseUnits(w) ==
              if NoneNegative(us) && Sum(us) <= TWO_63 then Ok(Sum(us)) else Err(BadDuration)
  {
    if NoneNegative(us) { AddUpIsSum(us, 0); }
  }

  /** A text with its sign, if its parts are known. */
  lemma ParseParts(s: string, w: string, us: seq<Part>, neg: bool)
    requires s == (if neg then "-" else "") + w && |w| >= 2 && IsDigit(w[0])
    requires ReadParts(w) == (if NoneNegative(us) then Some(us) else None) && (NoneNegative(us) ==> Small(us))
    ensures ParseDuration(s) ==
              if !NoneNegative(us) || Sum(us) > (if neg then TWO_63 else MAX_INT64) then Err(BadDuration)
              else Ok(if neg then -Sum(us) else Sum(us))
  {
    UnitsOf(w, us);
    ParseSigned(w, neg);
  }

  lemma {:induction false} ParseWritten(ps: seq<Part>)
    requires Standard(ps) && Sized(ps) && ps != []
    ensures ParseDuration(Written(ps)) == Outcome(ps)
  {
    var us := Unsigned(ps);
    UnsignedIs(ps);
    WrittenUnsigned(ps);
    WrittenIsLong(us);
    ReadWritten(us);
    ParseParts(Written(ps), Written(us), us, ps[0].n < 0);
  }

  /** The sum the tokens stand for, or a refusal if it is no 64-bit number. */
  function Ideal(ts: seq<Token>): Result<int> {
    if Total(ts) <= MAX_INT64 then Ok(Total(ts)) else Err(BadDuration)
  }

  /** Every product is a 64-bit number, or what it has become is refused all the same. */
  ghost predicate ComesOutRight(ts: seq<Token>)
    requires ts != []
  {
    || (forall t :: t in ts ==> Value(t.quantity) * Means(t.unit).times <= MAX_INT64)
    || LaterNegative(Parts(ts))
    || Sum(Unsigned(Parts(ts))) > Room(Parts(ts))
  }

  lemma {:induction false} TotalIsSum(ts: seq<Token>)
    requires forall t :: t in ts ==> Value(t.quantity) * Means(t.unit).times <= MAX_INT64
    ensures Total(ts) == Sum(Parts(ts)) && NoneNegative(Parts(ts))
  {
    if ts != [] {
      var t := ts[0];
      assert t in ts;
      NoWrap(Value(t.quantity) * Means(t.unit).times);
      assert Parts(ts)[1..] == Parts(ts[1..]);
      TotalIsSum(ts[1..]);
      forall k | 0 <= k < |ts| ensures Parts(ts)[k].n >= 0 {
        if k > 0 { assert Parts(ts)[k] == Parts(ts[1..])[k - 1]; }
      }
    }
  }

  lemma NanosecondsAtLeast(n: nat, unit: string)
    requires unit in STANDARD_UNITS
    ensures InNanoseconds(n, unit) >= n
  {
  }

  lemma {:induction false} TotalAtLeast(ts: seq<Token>, t: Token)
    requires KnownUnits(ts)
    ensures Total(ts) >= 0
    ensures t in ts ==> Total(ts) >= Value(t.quantity) * Means(t.unit).times
  {
    if ts != [] {
      assert ts == [ts[0]] + ts[1..];
      TotalAtLeast(ts[1..], t);
      KnownUnitIs(ts[0].unit);
      NanosecondsAtLeast(Value(ts[0].quantity) * Means(ts[0].unit).times, Means(ts[0].unit).unit);
    }
  }

  lemma OutcomeIsIdealIff(ts: seq<Token>)
    requires ts != [] && KnownUnits(ts)
    ensures Outcome(Parts(ts)) == Ideal(ts) <==> ComesOutRight(ts)
  {
    var ps := Parts(ts);
    if forall t :: t in ts ==> Value(t.quantity) * Means(t.unit).times <= MAX_INT64 {
      TotalIsSum(ts);
      assert Unsigned(ps) == ps;
    } else {
      var t :| t in ts && Value(t.quantity) * Means(t.unit).times > MAX_INT64;
      TotalAtLeast(ts, t);
    }
  }

  /** Main result, for every text that is not a bare number. It fails if the expression finds nothing in it,
      or a unit is unknown, or a quantity is no 64-bit number. Otherwise it is worth what its 64-bit products
      add up to, the first one's sign standing before the whole sum; and that is the sum its tokens stand
      for, or a refusal if that is too large, if and only if no product leaves 64 bits or what it becomes is
      refused. */
  lemma DurationMeans(input: string)
    requires input != "" && !OnlyNumeric(input)
    ensures var ts := Tokens(input);
            && (forall found :: IsFindAll(RemoveSpaces(RemoveAnd(input)), found) <==> found == ts)
            && (ts == [] || !KnownUnits(ts) || !InRange(ts) ==> ParseDurationString(input).Err?)
            && (ts != [] && KnownUnits(ts) && InRange(ts) ==>
                  && ParseDurationString(input) == Outcome(Parts(ts))
                  && (ParseDurationString(input) == Ideal(ts) <==> ComesOutRight(ts)))
  {
    var ts := Tokens(input);
    forall found ensures IsFindAll(RemoveSpaces(RemoveAnd(input)), found) <==> found == ts {
      ScanIsFindAll(RemoveSpaces(RemoveAnd(input)), found);
    }
    StandardizeSucceeds(ts);
    if ts != [] && KnownUnits(ts) && InRange(ts) {
      StandardizeWrites(ts);
      PartsAreStandard(ts);
      ParseWritten(Parts(ts));
      OutcomeIsIdealIff(ts);
    }
  }

  lemma WrapIs(x: nat)
    ensures Wrap64(x) == x <==> x <= MAX_INT64
  {
    if x <= MAX_INT64 { NoWrap(x); }
  }

  /** A bare number is so many seconds exactly while their nanoseconds fit 64 bits; past that it is taken
      for another duration, not refused, unless the number itself does not fit. */
  lemma BareNumberMeans(input: string)
    requires OnlyNumeric(input)
    ensures ParseDurationString(input).Ok? <==> Value(input) <= MAX_INT64
    ensures ParseDurationString(input) == Ok(InNanoseconds(Value(input), "s"))
            <==> InNanoseconds(Value(input), "s") <= MAX_INT64
  {
    WrapIs(InNanoseconds(Value(input), "s"));
  }
}
