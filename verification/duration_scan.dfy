/** What the duration expression `([1-9]\d*?)([^\d\s]+)` finds in a text: its meaning as a leftmost match
    with a lazy and a greedy part, and a scanner over whole runs that finds the same tokens. */
module DurationScan {

  predicate IsDigit(c: char) { '0' <= c <= '9' }

  predicate IsSpace(c: char) { c == ' ' || c == '\t' || c == '\n' || c == '\r' || c == '\U{000C}' }

  predicate IsUnitChar(c: char) { !IsDigit(c) && !IsSpace(c) }

  datatype Token = Token(quantity: string, unit: string)

  // ------------------------------------------------------------------ the expression

  /** The expression can match with its quantity at `i..j` and its unit at `j..k`. */
  ghost predicate Shape(s: string, i: int, j: int, k: int) {
    && 0 <= i < j < k <= |s|
    && '1' <= s[i] <= '9'
    && (forall n :: i < n < j ==> IsDigit(s[n]))
    && (forall n :: j <= n < k ==> IsUnitChar(s[n]))
  }

  /** The match the expression prefers: leftmost start, then fewest digits, then longest unit. */
  ghost predicate IsMatch(s: string, i: int, j: int, k: int) {
    && Shape(s, i, j, k)
    && (forall i', j', k' :: Shape(s, i', j', k') ==> i <= i')
    && (forall j', k' :: Shape(s, i, j', k') ==> j <= j')
    && (forall k' :: Shape(s, i, j, k') ==> k' <= k)
  }

  /** Repeated matching, each time in the text after the previous match. */
  ghost predicate IsFindAll(s: string, ts: seq<Token>)
    decreases |ts|, 1
  {
    if ts == [] then forall i, j, k :: !Shape(s, i, j, k)
    else exists i, j, k :: StartsWith(s, ts, i, j, k)
  }

  ghost predicate StartsWith(s: string, ts: seq<Token>, i: int, j: int, k: int)
    requires ts != []
    decreases |ts|, 0
  {
    IsMatch(s, i, j, k) && ts[0] == Token(s[i..j], s[j..k]) && IsFindAll(s[k..], ts[1..])
  }

  // ------------------------------------------------------------------ the scanner

  function DigitRun(s: string): (r: string)
    ensures |r| <= |s|
  {
    if s == "" || !IsDigit(s[0]) then "" else [s[0]] + DigitRun(s[1..])
  }

  function UnitRun(s: string): (r: string)
    ensures |r| <= |s|
  {
    if s == "" || !IsUnitChar(s[0]) then "" else [s[0]] + UnitRun(s[1..])
  }

  function StripZeros(s: string): (r: string)
    ensures |r| <= |s|
  {
    if s != "" && s[0] == '0' then StripZeros(s[1..]) else s
  }

  lemma {:induction false} DigitRunIs(s: string)
    ensures var r := DigitRun(s);
            r <= s && (forall n :: 0 <= n < |r| ==> IsDigit(s[n])) && (|r| < |s| ==> !IsDigit(s[|r|]))
  {
    if s != "" && IsDigit(s[0]) {
      DigitRunIs(s[1..]);
      assert s == [s[0]] + s[1..];
    }
  }

  lemma {:induction false} UnitRunIs(s: string)
    ensures var r := UnitRun(s);
            r <= s && (forall n :: 0 <= n < |r| ==> IsUnitChar(s[n])) && (|r| < |s| ==> !IsUnitChar(s[|r|]))
  {
    if s != "" && IsUnitChar(s[0]) {
      UnitRunIs(s[1..]);
      assert s == [s[0]] + s[1..];
    }
  }

  lemma {:induction false} StripZerosIs(s: string)
    ensures var r := StripZeros(s);
            && r == s[|s| - |r|..]
            && (forall n :: 0 <= n < |s| - |r| ==> s[n] == '0')
            && (r != "" ==> r[0] != '0')
  {
    if s != "" && s[0] == '0' {
      StripZerosIs(s[1..]);
      assert s == ['0'] + s[1..];
    }
  }

  /** Each maximal digit run without its leading zeros, if anything is left of it, with the maximal run of
      unit characters that follows it, if there is one. */
  function Scan(s: string): seq<Token>
    decreases |s|
  {
    if s == "" then []
    else if !IsDigit(s[0]) then Scan(s[1..])
    else
      var digits := DigitRun(s);
      var unit := UnitRun(s[|digits|..]);
      var quantity := StripZeros(digits);
      var rest := Scan(s[|digits| + |unit|..]);
      if quantity == "" || unit == "" then rest else [Token(quantity, unit)] + rest
  }

  // ------------------------------------------------------------------ they agree

  lemma ShapeShifts(s: string, n: nat, i: int, j: int, k: int)
    requires n <= |s| && 0 <= i
    ensures Shape(s[n..], i, j, k) <==> Shape(s, i + n, j + n, k + n)
  {
    var t := s[n..];
    if Shape(t, i, j, k) {
      forall m | i + n < m < j + n ensures IsDigit(s[m]) { assert s[m] == t[m - n]; }
      forall m | j + n <= m < k + n ensures IsUnitChar(s[m]) { assert s[m] == t[m - n]; }
    }
    if Shape(s, i + n, j + n, k + n) {
      forall m | i < m < j ensures IsDigit(t[m]) { assert t[m] == s[m + n]; }
      forall m | j <= m < k ensures IsUnitChar(t[m]) { assert t[m] == s[m + n]; }
    }
  }

  /** No match starts before n. */
  ghost predicate Dead(s: string, n: nat) {
    forall i, j, k :: Shape(s, i, j, k) ==> n <= i
  }

  lemma MatchShifts(s: string, n: nat, i: int, j: int, k: int)
    requires n <= |s| && Dead(s, n) && 0 <= i
    ensures IsMatch(s[n..], i, j, k) <==> IsMatch(s, i + n, j + n, k + n)
  {
    var t := s[n..];
    ShapeShifts(s, n, i, j, k);
    if IsMatch(t, i, j, k) {
      forall i', j', k' | Shape(s, i', j', k') ensures Shape(t, i' - n, j' - n, k' - n) {
        ShapeShifts(s, n, i' - n, j' - n, k' - n);
      }
    }
    if IsMatch(s, i + n, j + n, k + n) {
      forall i', j', k' | Shape(t, i', j', k') ensures Shape(s, i' + n, j' + n, k' + n) {
        ShapeShifts(s, n, i', j', k');
      }
    }
  }

  lemma StartShifts(s: string, n: nat, ts: seq<Token>, i: int, j: int, k: int)
    requires n <= |s| && Dead(s, n) && 0 <= i && ts != []
    ensures StartsWith(s[n..], ts, i, j, k) <==> StartsWith(s, ts, i + n, j + n, k + n)
  {
    MatchShifts(s, n, i, j, k);
    if IsMatch(s[n..], i, j, k) {
      assert s[n..][i..j] == s[i + n..j + n] && s[n..][j..k] == s[j + n..k + n] && s[n..][k..] == s[k + n..];
    }
  }

  lemma NoShapeShifts(s: string, n: nat)
    requires n <= |s| && Dead(s, n)
    ensures IsFindAll(s, []) <==> IsFindAll(s[n..], [])
  {
    if IsFindAll(s, []) {
      forall i, j, k ensures !Shape(s[n..], i, j, k) {
        if 0 <= i { ShapeShifts(s, n, i, j, k); }
      }
    }
    if IsFindAll(s[n..], []) {
      forall i, j, k ensures !Shape(s, i, j, k) {
        if n <= i { ShapeShifts(s, n, i - n, j - n, k - n); }
      }
    }
  }

  lemma FirstMatch(s: string, ts: seq<Token>) returns (i: int, j: int, k: int)
    requires ts != [] && IsFindAll(s, ts)
    ensures StartsWith(s, ts, i, j, k)
  {
    i, j, k :| StartsWith(s, ts, i, j, k);
  }

  /** Text in which no match starts can be dropped. */
  lemma DropDead(s: string, n: nat, ts: seq<Token>)
    requires n <= |s| && Dead(s, n)
    ensures IsFindAll(s, ts) <==> IsFindAll(s[n..], ts)
  {
    if ts == [] {
      NoShapeShifts(s, n);
    } else if IsFindAll(s, ts) {
      var i, j, k := FirstMatch(s, ts);
      StartShifts(s, n, ts, i - n, j - n, k - n);
    } else if IsFindAll(s[n..], ts) {
      var i, j, k := FirstMatch(s[n..], ts);
      StartShifts(s, n, ts, i, j, k);
    }
  }

  /** A match that starts inside the leading digit run has its unit right after the run. */
  lemma StartsInRun(s: string, i: int, j: int, k: int)
    requires Shape(s, i, j, k) && i < |DigitRun(s)|
    ensures var d := |DigitRun(s)|; j == d && UnitRun(s[d..]) != "" && k <= d + |UnitRun(s[d..])|
  {
    DigitRunIs(s);
    UnitRunIs(s[|DigitRun(s)|..]);
    var d := |DigitRun(s)|;
    var u := UnitRun(s[d..]);
    assert IsUnitChar(s[j]);
    assert IsDigit(s[j]) || d <= j;
    assert d < |s| && (!IsDigit(s[d]) || j <= d);
    assert j == d && s[d..][0] == s[d];
    assert d + |u| < |s| ==> !IsUnitChar(s[d..][|u|]) && s[d..][|u|] == s[d + |u|];
  }

  /** The digits from z on and the unit after the run are a shape. */
  lemma RunIsShape(s: string, z: nat)
    requires z < |DigitRun(s)| && s[z] != '0' && UnitRun(s[|DigitRun(s)|..]) != ""
    ensures var d := |DigitRun(s)|; Shape(s, z, d, d + |UnitRun(s[d..])|)
  {
    DigitRunIs(s);
    UnitRunIs(s[|DigitRun(s)|..]);
    var d := |DigitRun(s)|;
    var u := UnitRun(s[d..]);
    assert IsDigit(s[z]);
    forall n | d <= n < d + |u| ensures IsUnitChar(s[n]) { assert s[n] == s[d..][n - d]; }
  }

  lemma RunIsMatch(s: string)
    requires StripZeros(DigitRun(s)) != "" && UnitRun(s[|DigitRun(s)|..]) != ""
    ensures var d := |DigitRun(s)|;
            IsMatch(s, d - |StripZeros(DigitRun(s))|, d, d + |UnitRun(s[d..])|)
  {
    DigitRunIs(s);
    StripZerosIs(DigitRun(s));
    var digits := DigitRun(s);
    var d := |digits|;
    var q := StripZeros(digits);
    var z := d - |q|;
    assert s[z] == digits[z] == q[0];
    RunIsShape(s, z);
    forall n | 0 <= n < z ensures s[n] == '0' { assert s[n] == digits[n]; }
    forall j', k' | Shape(s, z, j', k') ensures j' == d && k' <= d + |UnitRun(s[d..])| { StartsInRun(s, z, j', k'); }
  }

  /** A leading digit run the expression skips, with the unit after it. */
  lemma RunIsDead(s: string)
    requires StripZeros(DigitRun(s)) == "" || UnitRun(s[|DigitRun(s)|..]) == ""
    ensures Dead(s, |DigitRun(s)| + |UnitRun(s[|DigitRun(s)|..])|)
  {
    DigitRunIs(s);
    UnitRunIs(s[|DigitRun(s)|..]);
    StripZerosIs(DigitRun(s));
    var digits := DigitRun(s);
    var unit := UnitRun(s[|digits|..]);
    var n := |digits| + |unit|;
    forall m | |digits| <= m < n ensures !('1' <= s[m] <= '9') { assert s[m] == s[|digits|..][m - |digits|]; }
    forall i, j, k | Shape(s, i, j, k) ensures |digits| <= i {
      assert i < |digits| ==> s[i] == digits[i];
      if i < |digits| { StartsInRun(s, i, j, k); }
    }
  }

  /** What the expression prefers comes first among its tokens. */
  lemma MatchComesFirst(s: string, ts: seq<Token>, i: int, j: int, k: int)
    requires IsMatch(s, i, j, k)
    ensures IsFindAll(s, ts) <==> ts != [] && StartsWith(s, ts, i, j, k)
  {
    if ts != [] && IsFindAll(s, ts) {
      var i', j', k' := FirstMatch(s, ts);
      assert i' == i && j' == j && k' == k;
    }
  }

  /** The scanner at a leading digit run. */
  lemma {:induction false} ScanOfRun(s: string)
    requires s != "" && IsDigit(s[0])
    ensures var digits := DigitRun(s);
            var unit := UnitRun(s[|digits|..]);
            var rest := Scan(s[|digits| + |unit|..]);
            Scan(s) == if StripZeros(digits) == "" || unit == "" then rest
                       else [Token(StripZeros(digits), unit)] + rest
  {
  }

  lemma RunSlices(s: string)
    ensures var d, q := |DigitRun(s)|, StripZeros(DigitRun(s));
            var u := UnitRun(s[d..]);
            s[d - |q|..d] == q && s[d..d + |u|] == u
  {
    DigitRunIs(s);
    UnitRunIs(s[|DigitRun(s)|..]);
    StripZerosIs(DigitRun(s));
  }

  /** At a leading run the expression skips. */
  lemma {:induction false} SkippedRun(s: string, ts: seq<Token>, d: nat, unit: string)
    requires s != "" && IsDigit(s[0]) && d == |DigitRun(s)| && unit == UnitRun(s[d..])
    requires StripZeros(DigitRun(s)) == "" || unit == ""
    ensures IsFindAll(s, ts) <==> IsFindAll(s[d + |unit|..], ts)
  {
    RunIsDead(s);
    DropDead(s, d + |unit|, ts);
  }

  lemma StartsWithIs(s: string, ts: seq<Token>, i: int, j: int, k: int, t: Token)
    requires ts != [] && IsMatch(s, i, j, k) && t == Token(s[i..j], s[j..k])
    ensures StartsWith(s, ts, i, j, k) <==> ts[0] == t && IsFindAll(s[k..], ts[1..])
  {
  }

  /** At a leading run the expression matches. */
  lemma {:induction false} MatchedRun(s: string, ts: seq<Token>, d: nat, quantity: string, unit: string)
    requires s != "" && IsDigit(s[0]) && d == |DigitRun(s)| && unit == UnitRun(s[d..])
    requires quantity == StripZeros(DigitRun(s)) && quantity != "" && unit != ""
    ensures IsFindAll(s, ts) <==>
              ts != [] && ts[0] == Token(quantity, unit) && IsFindAll(s[d + |unit|..], ts[1..])
  {
    RunIsMatch(s);
    RunSlices(s);
    MatchComesFirst(s, ts, d - |quantity|, d, d + |unit|);
    if ts != [] { StartsWithIs(s, ts, d - |quantity|, d, d + |unit|, Token(quantity, unit)); }
  }

  /** Main result: for every text, repeated leftmost matching finds exactly the scanner's tokens. */
  lemma {:induction false} ScanIsFindAll(s: string, ts: seq<Token>)
    ensures IsFindAll(s, ts) <==> ts == Scan(s)
    decreases |s|
  {
    if s == "" {
      assert Scan(s) == [];
      if ts != [] && IsFindAll(s, ts) {
        var i, j, k := FirstMatch(s, ts);
      }
    } else if !IsDigit(s[0]) {
      DropDead(s, 1, ts);
      ScanIsFindAll(s[1..], ts);
    } else {
      var d, quantity := |DigitRun(s)|, StripZeros(DigitRun(s));
      var unit := UnitRun(s[d..]);
      DigitRunIs(s);
      ScanOfRun(s);
      if quantity == "" || unit == "" {
        SkippedRun(s, ts, d, unit);
        ScanIsFindAll(s[d + |unit|..], ts);
      } else {
        MatchedRun(s, ts, d, quantity, unit);
        if ts != [] {
          ScanIsFindAll(s[d + |unit|..], ts[1..]);
          assert ts == [ts[0]] + ts[1..];
        }
      }
    }
  }
}
