/** Service account tokens: two byte strings in unpadded base64url (section 5 of RFC 4648), behind a prefix
    and between dots. */
module Token {
  import opened Common

  type Byte = x: int | 0 <= x < 256

  type Six = x: int | 0 <= x < 64

  const PREFIX := "conduit_sa"

  // ------------------------------------------------------------------ the alphabet

  function CharOf(n: Six): char {
    if n < 26 then ('A' as int + n) as char
    else if n < 52 then ('a' as int + n - 26) as char
    else if n < 62 then ('0' as int + n - 52) as char
    else if n == 62 then '-' else '_'
  }

  function IndexOf(c: char): Option<Six> {
    if 'A' <= c <= 'Z' then Some(c as int - 'A' as int)
    else if 'a' <= c <= 'z' then Some(c as int - 'a' as int + 26)
    else if '0' <= c <= '9' then Some(c as int - '0' as int + 52)
    else if c == '-' then Some(62)
    else if c == '_' then Some(63)
    else None
  }

  predicate InAlphabet(c: char) { IndexOf(c).Some? }

  lemma IndexOfChar(n: Six)
    ensures IndexOf(CharOf(n)) == Some(n)
  {
  }

  // ------------------------------------------------------------------ six-bit digits

  /** The four digits of three bytes, and the three bytes of four digits. */
  function D0(x: Byte): Six { x / 4 }
  function D1(x: Byte, y: Byte): Six { x % 4 * 16 + y / 16 }
  function D2(y: Byte, z: Byte): Six { y % 16 * 4 + z / 64 }
  function D3(z: Byte): Six { z % 64 }

  function B0(p: Six, q: Six): Byte { p * 4 + q / 16 }
  function B1(q: Six, r: Six): Byte { q % 16 * 16 + r / 4 }
  function B2(r: Six, t: Six): Byte { r % 4 * 64 + t }

  /** The digits of a byte string; the last one of a short group is filled up with zero bits. */
  function DigitsOf(b: seq<Byte>): seq<Six> {
    if b == [] then []
    else if |b| == 1 then [D0(b[0]), D1(b[0], 0)]
    else if |b| == 2 then [D0(b[0]), D1(b[0], b[1]), D2(b[1], 0)]
    else [D0(b[0]), D1(b[0], b[1]), D2(b[1], b[2]), D3(b[2])] + DigitsOf(b[3..])
  }

  function Text(ds: seq<Six>): string {
    seq(|ds|, k requires 0 <= k < |ds| => CharOf(ds[k]))
  }

  function Encode(b: seq<Byte>): string { Text(DigitsOf(b)) }

  /** The bytes of a digit string; leftover bits are not looked at, a single leftover digit is an error. */
  function BytesOf(ds: seq<Six>): Option<seq<Byte>> {
    if ds == [] then Some([])
    else if |ds| == 1 then None
    else if |ds| == 2 then Some([B0(ds[0], ds[1])])
    else if |ds| == 3 then Some([B0(ds[0], ds[1]), B1(ds[1], ds[2])])
    else
      match BytesOf(ds[4..])
      case None => None
      case Some(rest) => Some([B0(ds[0], ds[1]), B1(ds[1], ds[2]), B2(ds[2], ds[3])] + rest)
  }

  /** The digits of a text; line ends are skipped, any other character outside the alphabet is an error. */
  function ReadDigits(s: string): Option<seq<Six>> {
    if s == "" then Some([])
    else
      match ReadDigits(s[1..])
      case None => None
      case Some(rest) =>
        if s[0] == '\n' || s[0] == '\r' then Some(rest)
        else if InAlphabet(s[0]) then Some([IndexOf(s[0]).value] + rest)
        else None
  }

  function Decode(s: string): Option<seq<Byte>> {
    match ReadDigits(s)
    case None => None
    case Some(ds) => BytesOf(ds)
  }

  // ------------------------------------------------------------------ the round trip

  lemma {:induction false} ReadText(ds: seq<Six>)
    ensures ReadDigits(Text(ds)) == Some(ds)
  {
    if ds != [] {
      assert Text(ds)[1..] == Text(ds[1..]);
      ReadText(ds[1..]);
      IndexOfChar(ds[0]);
      assert ds == [ds[0]] + ds[1..];
    }
  }

  lemma ThreeBytes(x: Byte, y: Byte, z: Byte)
    ensures B0(D0(x), D1(x, y)) == x
    ensures B1(D1(x, y), D2(y, z)) == y
    ensures B2(D2(y, z), D3(z)) == z
  {
  }

  lemma OneByte(x: Byte, p: Six, q: Six)
    requires B0(p, q) == x
    ensures BytesOf([p, q]) == Some([x])
  {
  }

  lemma TwoBytes(x: Byte, y: Byte, p: Six, q: Six, r: Six)
    requires B0(p, q) == x && B1(q, r) == y
    ensures BytesOf([p, q, r]) == Some([x, y])
  {
  }

  lemma FullGroup(x: Byte, y: Byte, z: Byte, p: Six, q: Six, r: Six, t: Six, tail: seq<Six>, rest: seq<Byte>)
    requires B0(p, q) == x && B1(q, r) == y && B2(r, t) == z && BytesOf(tail) == Some(rest)
    ensures BytesOf([p, q, r, t] + tail) == Some([x, y, z] + rest)
  {
    assert ([p, q, r, t] + tail)[4..] == tail;
  }

  lemma {:induction false} BytesOfDigits(b: seq<Byte>)
    ensures BytesOf(DigitsOf(b)) == Some(b)
  {
    if |b| == 1 {
      assert b == [b[0]];
      ThreeBytes(b[0], 0, 0);
      OneByte(b[0], D0(b[0]), D1(b[0], 0));
    } else if |b| == 2 {
      assert b == [b[0], b[1]];
      ThreeBytes(b[0], b[1], 0);
      TwoBytes(b[0], b[1], D0(b[0]), D1(b[0], b[1]), D2(b[1], 0));
    } else if |b| > 2 {
      var x, y, z, rest := b[0], b[1], b[2], b[3..];
      BytesOfDigits(rest);
      ThreeBytes(x, y, z);
      FullGroup(x, y, z, D0(x), D1(x, y), D2(y, z), D3(z), DigitsOf(rest), rest);
      assert b == [x, y, z] + rest;
    }
  }

  /** Main result: decoding undoes encoding for byte strings of every length. */
  lemma DecodeEncode(b: seq<Byte>)
    ensures Decode(Encode(b)) == Some(b)
  {
    ReadText(DigitsOf(b));
    BytesOfDigits(b);
  }

  /** A sequence of digits read as one number behind the digits already read. */
  function Number(read: nat, base: nat, ds: seq<nat>): nat
    decreases ds
  {
    if ds == [] then read else Number(read * base + ds[0], base, ds[1..])
  }

  lemma GroupNumber(read: nat, x: Byte, y: Byte, z: Byte)
    ensures ((((read * 64 + D0(x)) * 64 + D1(x, y)) * 64 + D2(y, z)) * 64 + D3(z)) ==
              ((read * 256 + x) * 256 + y) * 256 + z
    ensures (read * 64 + D0(x)) * 64 + D1(x, 0) == (read * 256 + x) * 16
    ensures ((read * 64 + D0(x)) * 64 + D1(x, y)) * 64 + D2(y, 0) == ((read * 256 + x) * 256 + y) * 4
  {
  }

  lemma {:induction false} NumberStep(read: nat, base: nat, d: nat, tail: seq<nat>)
    ensures Number(read, base, [d] + tail) == Number(read * base + d, base, tail)
  {
    assert ([d] + tail)[1..] == tail;
  }

  lemma {:induction false} NumberOfFour(read: nat, p: nat, q: nat, r: nat, t: nat, tail: seq<nat>)
    ensures Number(read, 64, [p, q, r, t] + tail) == Number((((read * 64 + p) * 64 + q) * 64 + r) * 64 + t, 64, tail)
  {
    NumberOfThree(read, 64, p, q, r, [t] + tail);
    assert [p, q, r, t] + tail == [p, q, r] + ([t] + tail);
    NumberStep(((read * 64 + p) * 64 + q) * 64 + r, 64, t, tail);
  }

  lemma {:induction false} NumberOfThree(read: nat, base: nat, x: nat, y: nat, z: nat, tail: seq<nat>)
    ensures Number(read, base, [x, y, z] + tail) == Number(((read * base + x) * base + y) * base + z, base, tail)
  {
    assert [x, y, z] + tail == [x] + ([y] + ([z] + tail));
    NumberStep(read, base, x, [y] + ([z] + tail));
    NumberStep(read * base + x, base, y, [z] + tail);
    NumberStep((read * base + x) * base + y, base, z, tail);
  }

  lemma {:induction false} ShortNumbers(read: nat, base: nat, p: nat, q: nat, r: nat)
    ensures Number(read, base, [p]) == read * base + p
    ensures Number(read, base, [p, q]) == (read * base + p) * base + q
    ensures Number(read, base, [p, q, r]) == ((read * base + p) * base + q) * base + r
  {
    assert [p] == [p] + [] && [p, q] == [p] + [q] && [p, q, r] == [p, q, r] + [];
    NumberStep(read, base, p, []);
    NumberStep(read, base, p, [q]);
    assert [q] == [q] + [];
    NumberStep(read * base + p, base, q, []);
    NumberOfThree(read, base, p, q, r, []);
  }

  lemma {:induction false} ShortGroup(read: nat, b: seq<Byte>)
    requires 1 <= |b| <= 2
    ensures Number(read, 64, DigitsOf(b)) == Number(read, 256, b) * (if |b| == 1 then 16 else 4)
  {
    var y := if |b| == 2 then b[1] else 0;
    GroupNumber(read, b[0], y, 0);
    ShortNumbers(read, 64, D0(b[0]), D1(b[0], y), D2(y, 0));
    ShortNumbers(read, 256, b[0], y, 0);
    assert b == if |b| == 1 then [b[0]] else [b[0], b[1]];
  }

  lemma {:induction false} ThreeFurther(read: nat, b: seq<Byte>, next: nat)
    requires |b| >= 3 && next == ((read * 256 + b[0]) * 256 + b[1]) * 256 + b[2]
    ensures Number(read, 256, b) == Number(next, 256, b[3..])
    ensures Number(read, 64, DigitsOf(b)) == Number(next, 64, DigitsOf(b[3..]))
  {
    assert b == [b[0], b[1], b[2]] + b[3..];
    NumberOfThree(read, 256, b[0], b[1], b[2], b[3..]);
    GroupNumber(read, b[0], b[1], b[2]);
    NumberOfFour(read, D0(b[0]), D1(b[0], b[1]), D2(b[1], b[2]), D3(b[2]), DigitsOf(b[3..]));
  }

  /** The digits spell the bits of the bytes in order; a short group is filled up with zero bits. */
  lemma {:induction false} DigitsSpellBytes(read: nat, b: seq<Byte>, n: nat)
    requires n == |b| % 3
    ensures n == 0 ==> Number(read, 64, DigitsOf(b)) == Number(read, 256, b)
    ensures n == 1 ==> Number(read, 64, DigitsOf(b)) == Number(read, 256, b) * 16
    ensures n == 2 ==> Number(read, 64, DigitsOf(b)) == Number(read, 256, b) * 4
    decreases b
  {
    if 1 <= |b| <= 2 {
      ShortGroup(read, b);
    } else if b != [] {
      var next := ((read * 256 + b[0]) * 256 + b[1]) * 256 + b[2];
      ThreeFurther(read, b, next);
      assert |b[3..]| == |b| - 3;
      DigitsSpellBytes(next, b[3..], n);
    }
  }

  /** The alphabet: upper-case letters, lower-case letters, digits, each in order, and two signs. */
  lemma AlphabetIs(n: Six)
    ensures CharOf(0) == 'A' && CharOf(26) == 'a' && CharOf(52) == '0' && CharOf(62) == '-' && CharOf(63) == '_'
    ensures CharOf(25) == 'Z' && CharOf(51) == 'z' && CharOf(61) == '9'
    ensures n !in {0, 26, 52, 62, 63} ==> CharOf(n) as int == CharOf(n - 1) as int + 1
  {
  }

  lemma {:induction false} EncodedLength(b: seq<Byte>)
    ensures |Encode(b)| == (4 * |b| + 2) / 3
  {
    if |b| > 2 { EncodedLength(b[3..]); }
  }

  lemma EncodedAlphabet(b: seq<Byte>)
    ensures forall k :: 0 <= k < |Encode(b)| ==> InAlphabet(Encode(b)[k])
  {
    forall k | 0 <= k < |Encode(b)| ensures InAlphabet(Encode(b)[k]) { IndexOfChar(DigitsOf(b)[k]); }
  }

  ghost predicate NoDot(s: string) { forall k :: 0 <= k < |s| ==> s[k] != '.' }

  lemma EncodedHasNoDot(b: seq<Byte>)
    ensures NoDot(Encode(b))
  {
    EncodedAlphabet(b);
    forall k | 0 <= k < |Encode(b)| ensures Encode(b)[k] != '.' { assert InAlphabet(Encode(b)[k]); }
  }

  // ------------------------------------------------------------------ what can be decoded

  lemma {:induction false} ReadConcat(s: string, t: string)
    ensures ReadDigits(s).Some? && ReadDigits(t).Some? ==>
              ReadDigits(s + t) == Some(ReadDigits(s).value + ReadDigits(t).value)
    ensures ReadDigits(s).None? || ReadDigits(t).None? ==> ReadDigits(s + t).None?
  {
    if s == "" {
      assert s + t == t;
      if ReadDigits(t).Some? { assert [] + ReadDigits(t).value == ReadDigits(t).value; }
    } else {
      assert (s + t)[1..] == s[1..] + t && (s + t)[0] == s[0];
      ReadConcat(s[1..], t);
      if ReadDigits(s).Some? && ReadDigits(t).Some? && InAlphabet(s[0]) {
        var d, x, y := IndexOf(s[0]).value, ReadDigits(s[1..]).value, ReadDigits(t).value;
        assert [d] + (x + y) == [d] + x + y;
      }
    }
  }

  /** A line end anywhere makes no difference. */
  lemma LineEndsAreSkipped(s: string, t: string, end: char)
    requires end == '\n' || end == '\r'
    ensures Decode(s + [end] + t) == Decode(s + t)
  {
    var e := [end];
    assert ReadDigits(e) == Some([]) by { assert e[1..] == ""; }
    ReadConcat(s + e, t);
    ReadConcat(s, e);
    ReadConcat(s, t);
    if ReadDigits(s).Some? { assert ReadDigits(s).value + [] == ReadDigits(s).value; }
  }

  lemma {:induction false} ReadsIff(s: string)
    requires '\n' !in s && '\r' !in s
    ensures ReadDigits(s).Some? <==> forall c :: c in s ==> InAlphabet(c)
    ensures ReadDigits(s).Some? ==> |ReadDigits(s).value| == |s|
  {
    if s != "" {
      assert s == [s[0]] + s[1..];
      ReadsIff(s[1..]);
    }
  }

  lemma GroupOfFour(read: nat, p: Six, q: Six, r: Six, t: Six)
    ensures ((read * 256 + B0(p, q)) * 256 + B1(q, r)) * 256 + B2(r, t) ==
              (((read * 64 + p) * 64 + q) * 64 + r) * 64 + t
  {
  }

  lemma ShortGroupBytes(read: nat, p: Six, q: Six, r: Six)
    ensures read * 256 + B0(p, q) == ((read * 64 + p) * 64 + q) / 16
    ensures (read * 256 + B0(p, q)) * 256 + B1(q, r) == (((read * 64 + p) * 64 + q) * 64 + r) / 4
  {
  }

  lemma {:induction false} ShortDigits(read: nat, ds: seq<Six>)
    requires 2 <= |ds| <= 3
    ensures BytesOf(ds).Some?
    ensures Number(read, 256, BytesOf(ds).value) == Number(read, 64, ds) / (if |ds| == 2 then 16 else 4)
  {
    var p, q, r := ds[0], ds[1], if |ds| == 3 then ds[2] else 0;
    ShortGroupBytes(read, p, q, r);
    ShortNumbers(read, 64, p, q, r);
    ShortNumbers(read, 256, B0(p, q), B1(q, r), 0);
    assert ds == if |ds| == 2 then [p, q] else [p, q, r];
  }

  lemma {:induction false} FourFurther(read: nat, ds: seq<Six>, next: nat)
    requires |ds| >= 4 && next == (((read * 64 + ds[0]) * 64 + ds[1]) * 64 + ds[2]) * 64 + ds[3]
    ensures Number(read, 64, ds) == Number(next, 64, ds[4..])
  {
    assert ds == [ds[0], ds[1], ds[2], ds[3]] + ds[4..];
    NumberOfFour(read, ds[0], ds[1], ds[2], ds[3], ds[4..]);
  }

  lemma {:induction false} FourDigits(ds: seq<Six>) returns (x: Byte, y: Byte, z: Byte)
    requires |ds| >= 4
    ensures x == B0(ds[0], ds[1]) && y == B1(ds[1], ds[2]) && z == B2(ds[2], ds[3])
    ensures BytesOf(ds).Some? <==> BytesOf(ds[4..]).Some?
    ensures BytesOf(ds).Some? ==> BytesOf(ds).value == [x, y, z] + BytesOf(ds[4..]).value
  {
    x, y, z := B0(ds[0], ds[1]), B1(ds[1], ds[2]), B2(ds[2], ds[3]);
  }

  lemma {:induction false} BytesFurther(read: nat, x: Byte, y: Byte, z: Byte, next: nat, b: seq<Byte>, c: seq<Byte>)
    requires next == ((read * 256 + x) * 256 + y) * 256 + z && b == [x, y, z] + c
    ensures Number(read, 256, b) == Number(next, 256, c)
  {
    NumberOfThree(read, 256, x, y, z, c);
  }

  /** The bytes are the digits' bits, without those left over; one digit alone in its group is an error. */
  lemma {:induction false} BytesSpellDigits(read: nat, ds: seq<Six>, n: nat)
    requires n == |ds| % 4
    ensures BytesOf(ds).Some? <==> n != 1
    ensures n == 0 ==> Number(read, 256, BytesOf(ds).value) == Number(read, 64, ds)
    ensures n == 2 ==> Number(read, 256, BytesOf(ds).value) == Number(read, 64, ds) / 16
    ensures n == 3 ==> Number(read, 256, BytesOf(ds).value) == Number(read, 64, ds) / 4
    decreases ds
  {
    if |ds| >= 4 {
      var next := (((read * 64 + ds[0]) * 64 + ds[1]) * 64 + ds[2]) * 64 + ds[3];
      FourFurther(read, ds, next);
      assert |ds[4..]| == |ds| - 4;
      BytesSpellDigits(next, ds[4..], n);
      var x, y, z := FourDigits(ds);
      GroupOfFour(read, ds[0], ds[1], ds[2], ds[3]);
      if n != 1 { BytesFurther(read, x, y, z, next, BytesOf(ds).value, BytesOf(ds[4..]).value); }
    } else if |ds| >= 2 {
      ShortDigits(read, ds);
    }
  }

  /** A text without line ends is decoded exactly when its characters are in the alphabet and no single one
      is left over. */
  lemma DecodesIff(s: string)
    requires '\n' !in s && '\r' !in s
    ensures Decode(s).Some? <==> (forall c :: c in s ==> InAlphabet(c)) && |s| % 4 != 1
  {
    ReadsIff(s);
    if ReadDigits(s).Some? { BytesSpellDigits(0, ReadDigits(s).value, |s| % 4); }
  }

  // ------------------------------------------------------------------ the token

  function Generate(lookup: seq<Byte>, secret: seq<Byte>): string {
    PREFIX + "." + Encode(lookup) + "." + Encode(secret)
  }

  /** `strings.Split(s, ".")` */
  function Split(s: string): (parts: seq<string>)
    ensures |parts| >= 1
  {
    if s == "" then [""]
    else
      var rest := Split(s[1..]);
      if s[0] == '.' then [""] + rest else [[s[0]] + rest[0]] + rest[1..]
  }

  function JoinDots(parts: seq<string>): string
    requires |parts| >= 1
  {
    if |parts| == 1 then parts[0] else parts[0] + "." + JoinDots(parts[1..])
  }

  datatype ParseError = WrongPartCount | WrongPrefix | WrongLookupLength | WrongSecretLength | BadLookup | BadSecret

  datatype Parsed = Parsed(lookup: string, secret: string) | Rejected(error: ParseError)

  function Parse(s: string): Parsed {
    var parts := Split(s);
    if |parts| != 3 then Rejected(WrongPartCount)
    else if parts[0] != PREFIX then Rejected(WrongPrefix)
    else if |parts[1]| != 22 then Rejected(WrongLookupLength)
    else if |parts[2]| != 43 then Rejected(WrongSecretLength)
    else if Decode(parts[1]).None? then Rejected(BadLookup)
    else if Decode(parts[2]).None? then Rejected(BadSecret)
    else Parsed(parts[1], parts[2])
  }

  lemma {:induction false} SplitOff(a: string, s: string)
    requires NoDot(a)
    ensures Split(a + "." + s) == [a] + Split(s) && Split(a) == [a]
  {
    var all := a + "." + s;
    if a == "" {
      assert all[1..] == s;
    } else {
      SplitOff(a[1..], s);
      assert all[1..] == a[1..] + "." + s;
      assert a == [a[0]] + a[1..];
    }
  }

  /** Splitting at dots and joining with dots undo each other, and no part has a dot. */
  lemma {:induction false} JoinSplit(s: string)
    ensures JoinDots(Split(s)) == s
    ensures forall k :: 0 <= k < |Split(s)| ==> NoDot(Split(s)[k])
  {
    if s != "" {
      JoinSplit(s[1..]);
      var rest := Split(s[1..]);
      assert s == [s[0]] + s[1..];
      if s[0] == '.' {
        assert ([""] + rest)[1..] == rest;
      } else {
        var all := [[s[0]] + rest[0]] + rest[1..];
        assert all[1..] == rest[1..];
      }
    }
  }

  lemma {:induction false} SplitThree(t: string, a: string, b: string, c: string)
    requires NoDot(a)
    ensures Split(t) == [a, b, c] <==> t == a + "." + b + "." + c && NoDot(b) && NoDot(c)
  {
    if Split(t) == [a, b, c] {
      JoinSplit(t);
      assert NoDot(Split(t)[1]) && NoDot(Split(t)[2]);
      assert [a, b, c][1..] == [b, c] && [b, c][1..] == [c];
      assert JoinDots([c]) == c && JoinDots([b, c]) == b + "." + c;
      assert t == a + "." + (b + "." + c);
    }
    if t == a + "." + b + "." + c && NoDot(b) && NoDot(c) {
      assert t == a + "." + (b + "." + c);
      SplitOff(a, b + "." + c);
      SplitOff(b, c);
      SplitOff(c, "");
    }
  }

  /** A text is accepted exactly when it has the token's shape. */
  lemma {:induction false} ParseAcceptsTokens(t: string, lookup: string, secret: string)
    ensures Parse(t) == Parsed(lookup, secret) <==>
            && t == "conduit_sa." + lookup + "." + secret
            && |lookup| == 22 && |secret| == 43 && NoDot(lookup) && NoDot(secret)
            && Decode(lookup).Some? && Decode(secret).Some?
  {
    assert PREFIX + "." == "conduit_sa.";
    SplitThree(t, PREFIX, lookup, secret);
    if Parse(t) == Parsed(lookup, secret) { assert Split(t) == [PREFIX, lookup, secret]; }
  }

  /** Main result: every generated token parses to exactly its two encoded parts, and they decode to the
      bytes they were made from. */
  lemma ParseGenerated(lookup: seq<Byte>, secret: seq<Byte>)
    requires |lookup| == 16 && |secret| == 32
    ensures Parse(Generate(lookup, secret)) == Parsed(Encode(lookup), Encode(secret))
    ensures Decode(Encode(lookup)) == Some(lookup) && Decode(Encode(secret)) == Some(secret)
  {
    DecodeEncode(lookup);
    DecodeEncode(secret);
    EncodedLength(lookup);
    EncodedLength(secret);
    EncodedHasNoDot(lookup);
    EncodedHasNoDot(secret);
    ParseAcceptsTokens(Generate(lookup, secret), Encode(lookup), Encode(secret));
  }
}
