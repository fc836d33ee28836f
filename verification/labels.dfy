/** Label values for Kubernetes: at most 63 characters, letters and digits with '-', '_' and '.' between. */
module Labels {

  const MAX_LABEL := 63

  predicate IsAlphanumeric(c: char) {
    'a' <= c <= 'z' || 'A' <= c <= 'Z' || '0' <= c <= '9'
  }

  predicate IsSeparator(c: char) { c == '-' || c == '_' || c == '.' }

  predicate IsAllowed(c: char) { IsAlphanumeric(c) || IsSeparator(c) }

  /** What Kubernetes accepts as a label value and this code may produce. */
  predicate IsLabel(s: string) {
    && 1 <= |s| <= MAX_LABEL
    && IsAlphanumeric(s[0]) && IsAlphanumeric(s[|s| - 1])
    && forall k :: 0 <= k < |s| ==> IsAllowed(s[k])
  }

  /** The first eight bytes of a digest, in hexadecimal. */
  predicate IsDigest(s: string) {
    |s| == 16 && forall k :: 0 <= k < |s| ==> '0' <= s[k] <= '9' || 'a' <= s[k] <= 'f'
  }

  // ------------------------------------------------------------------ the string functions used

  function TrimPrefix(s: string, prefix: string): string {
    if prefix <= s then s[|prefix|..] else s
  }

  function TrimLeft(s: string): string {
    if s != "" && IsSeparator(s[0]) then TrimLeft(s[1..]) else s
  }

  function TrimRight(s: string): string {
    if s != "" && IsSeparator(s[|s| - 1]) then TrimRight(s[..|s| - 1]) else s
  }

  /** The characters of s that satisfy p, in order. */
  function Kept(s: string, p: char -> bool): string {
    if s == "" then "" else Kept(s[..|s| - 1], p) + if p(s[|s| - 1]) then [s[|s| - 1]] else ""
  }

  predicate NotSlash(c: char) { c != '/' }

  function Stripped(value: string): string {
    Kept(TrimPrefix(TrimPrefix(value, "https://"), "http://"), NotSlash)
  }

  /** At most MAX_LABEL characters, not ending in a separator. */
  function Cut(s: string): string {
    if |s| > MAX_LABEL then TrimRight(s[..MAX_LABEL]) else s
  }

  function Trimmed(s: string): string { Cut(TrimRight(TrimLeft(s))) }

  function Sanitized(value: string, digest: string): string {
    var s := Trimmed(Kept(Stripped(value), IsAllowed));
    if s == "" then digest else s
  }

  // ------------------------------------------------------------------ what they do

  lemma {:induction false} KeptSatisfy(s: string, p: char -> bool)
    ensures forall c :: c in Kept(s, p) <==> c in s && p(c)
  {
    if s != "" {
      KeptSatisfy(s[..|s| - 1], p);
      assert s == s[..|s| - 1] + [s[|s| - 1]];
    }
  }

  lemma {:induction false} KeepingAll(s: string, p: char -> bool)
    requires forall c :: c in s ==> p(c)
    ensures Kept(s, p) == s
  {
    if s != "" {
      KeepingAll(s[..|s| - 1], p);
      assert s == s[..|s| - 1] + [s[|s| - 1]];
    }
  }

  /** Each character is kept or not for itself. */
  lemma {:induction false} KeptConcat(s: string, t: string, p: char -> bool)
    ensures Kept(s + t, p) == Kept(s, p) + Kept(t, p)
  {
    if t == "" {
      assert s + t == s;
    } else {
      assert (s + t)[..|s + t| - 1] == s + t[..|t| - 1];
      KeptConcat(s, t[..|t| - 1], p);
    }
  }

  /** The characters by their codes in ASCII. */
  lemma AllowedCharacters(c: char)
    ensures IsAlphanumeric(c) <==> 48 <= c as int <= 57 || 65 <= c as int <= 90 || 97 <= c as int <= 122
    ensures IsSeparator(c) <==> c as int in {45, 46, 95}
    ensures IsAllowed(c) <==> c as int in {45, 46, 95} || IsAlphanumeric(c)
  {
  }

  /** Trimming on the left removes a run of separators and stops at something else. */
  lemma {:induction false} TrimLeftIs(s: string) returns (a: nat)
    ensures a <= |s| && TrimLeft(s) == s[a..]
    ensures forall k :: 0 <= k < a ==> IsSeparator(s[k])
    ensures a < |s| ==> !IsSeparator(s[a])
  {
    if s != "" && IsSeparator(s[0]) {
      var b := TrimLeftIs(s[1..]);
      a := b + 1;
      assert s[1..][b..] == s[a..];
      forall k | 0 <= k < a ensures IsSeparator(s[k]) {
        if k > 0 { assert s[k] == s[1..][k - 1]; }
      }
    } else {
      a := 0;
      assert s[0..] == s;
    }
  }

  lemma {:induction false} TrimRightIs(s: string) returns (b: nat)
    ensures b <= |s| && TrimRight(s) == s[..b]
    ensures forall k :: b <= k < |s| ==> IsSeparator(s[k])
    ensures b > 0 ==> !IsSeparator(s[b - 1])
  {
    if s != "" && IsSeparator(s[|s| - 1]) {
      b := TrimRightIs(s[..|s| - 1]);
      assert s[..|s| - 1][..b] == s[..b];
      forall k | b <= k < |s| ensures IsSeparator(s[k]) {
        if k < |s| - 1 { assert s[k] == s[..|s| - 1][k]; }
      }
    } else {
      b := |s|;
      assert s[..b] == s;
    }
  }

  /** Cutting a text that starts with something other than a separator cannot empty it. */
  lemma CutKeepsAStart(s: string)
    requires s != "" && !IsSeparator(s[0]) && !IsSeparator(s[|s| - 1])
    ensures 1 <= |Cut(s)| <= MAX_LABEL && Cut(s) <= s && !IsSeparator(Cut(s)[|Cut(s)| - 1])
    ensures forall k :: |Cut(s)| <= k < |s| && k < MAX_LABEL ==> IsSeparator(s[k])
  {
    if |s| > MAX_LABEL {
      var b := TrimRightIs(s[..MAX_LABEL]);
      assert s[..MAX_LABEL][0] == s[0];
      assert s[..MAX_LABEL][..b] == s[..b];
      forall k | b <= k < MAX_LABEL ensures IsSeparator(s[k]) { assert s[..MAX_LABEL][k] == s[k]; }
    }
  }

  ghost predicate HasAlphanumeric(s: string) { exists c :: c in s && IsAlphanumeric(c) }

  /** Where the result lies in the allowed characters f: from the first letter or digit, to the last one or
      to the last one that fits. */
  ghost predicate IsCore(f: string, a: nat, b: nat) {
    && a < b <= |f| && b - a <= MAX_LABEL
    && IsAlphanumeric(f[a]) && IsAlphanumeric(f[b - 1])
    && (forall k :: 0 <= k < a ==> IsSeparator(f[k]))
    && (forall k :: b <= k < |f| && k - a < MAX_LABEL ==> IsSeparator(f[k]))
  }

  /** The trimmed and cut text is that core, or empty when there is no letter or digit. */
  lemma CoreOf(f: string) returns (a: nat, b: nat)
    requires forall c :: c in f ==> IsAllowed(c)
    ensures HasAlphanumeric(f) ==> IsCore(f, a, b) && Trimmed(f) == f[a..b]
    ensures !HasAlphanumeric(f) ==> Trimmed(f) == ""
  {
    a := TrimLeftIs(f);
    var l := TrimLeft(f);
    var m := TrimRightIs(l);
    var s := TrimRight(l);
    if a == |f| {
      b := a;
      assert forall c :: c in f ==> IsSeparator(c);
    } else {
      assert f[a] in f && l[0] == f[a];
      assert m > 0;
      assert l[m - 1] == f[a + m - 1] && f[a + m - 1] in f;
      CutKeepsAStart(s);
      b := a + |Cut(s)|;
      assert f[a..b] == Cut(s);
      assert f[b - 1] == Cut(s)[|Cut(s)| - 1] && f[b - 1] in f;
      forall k | b <= k < |f| && k - a < MAX_LABEL ensures IsSeparator(f[k]) {
        assert l[k - a] == f[k];
        if k - a < m { assert s[k - a] == f[k]; }
      }
    }
  }

  // ------------------------------------------------------------------ main results

  lemma CoreIsLabel(f: string, a: nat, b: nat)
    requires IsCore(f, a, b) && forall c :: c in f ==> IsAllowed(c)
    ensures IsLabel(f[a..b])
  {
    forall k | 0 <= k < b - a ensures IsAllowed(f[a..b][k]) { assert f[a..b][k] == f[a + k] && f[a + k] in f; }
  }

  lemma KeepingAlphanumerics(s: string)
    ensures HasAlphanumeric(Kept(s, IsAllowed)) <==> HasAlphanumeric(s)
    ensures forall c :: c in Kept(s, IsAllowed) ==> IsAllowed(c)
  {
    KeptSatisfy(s, IsAllowed);
    if HasAlphanumeric(s) {
      var c :| c in s && IsAlphanumeric(c);
      assert c in Kept(s, IsAllowed);
    }
  }

  /** Whatever the input, the result is a label. It is the digest when nothing alphanumeric is left, and
      otherwise the core of the allowed characters. */
  lemma SanitizedIsLabel(value: string, digest: string) returns (a: nat, b: nat)
    requires IsDigest(digest)
    ensures IsLabel(Sanitized(value, digest))
    ensures !HasAlphanumeric(Stripped(value)) ==> Sanitized(value, digest) == digest
    ensures HasAlphanumeric(Stripped(value)) ==>
              var f := Kept(Stripped(value), IsAllowed);
              IsCore(f, a, b) && Sanitized(value, digest) == f[a..b]
  {
    var f := Kept(Stripped(value), IsAllowed);
    KeepingAlphanumerics(Stripped(value));
    a, b := CoreOf(f);
    if HasAlphanumeric(f) { CoreIsLabel(f, a, b); }
  }

  lemma NotPrefixed(s: string, prefix: string, k: nat)
    requires k < |prefix| && prefix[k] !in s
    ensures TrimPrefix(s, prefix) == s
  {
    assert k < |s| ==> s[k] in s;
  }

  /** A text without ':' and '/' starts with no scheme and has nothing stripped. */
  lemma StrippingNothing(s: string)
    requires ':' !in s && '/' !in s
    ensures Stripped(s) == s
  {
    NotPrefixed(s, "https://", 5);
    NotPrefixed(s, "http://", 4);
    KeepingAll(s, NotSlash);
  }

  lemma TrimPrefixIs(s: string, prefix: string)
    ensures TrimPrefix(prefix + s, prefix) == s
    ensures !(prefix <= s) ==> TrimPrefix(s, prefix) == s
  {
  }

  /** A scheme in front is stripped; after "https://" also "http://". */
  lemma SchemeIsStripped(s: string)
    ensures !("http://" <= s) ==> Stripped("https://" + s) == Kept(s, NotSlash)
    ensures Stripped("http://" + s) == Stripped("https://" + ("http://" + s)) == Kept(s, NotSlash)
  {
    var t := "http://" + s;
    TrimPrefixIs(s, "https://");
    TrimPrefixIs(s, "http://");
    TrimPrefixIs(t, "https://");
    assert t[4] == ':' && "https://"[4] == 's';
  }

  lemma SlashIsStripped(s: string, t: string)
    ensures Kept(s + "/" + t, NotSlash) == Kept(s + t, NotSlash)
  {
    KeptConcat(s + "/", t, NotSlash);
    KeptConcat(s, "/", NotSlash);
    KeptConcat(s, t, NotSlash);
    assert Kept("/", NotSlash) == "" by { assert "/"[..0] == ""; }
  }

  lemma TrimmingNothing(s: string)
    requires s != "" && !IsSeparator(s[0]) && !IsSeparator(s[|s| - 1])
    ensures TrimRight(TrimLeft(s)) == s
  {
  }

  lemma LabelCharacters(s: string)
    requires IsLabel(s)
    ensures ':' !in s && '/' !in s && forall c :: c in s ==> IsAllowed(c)
  {
  }

  lemma StrippingLabel(s: string)
    requires IsLabel(s)
    ensures Kept(Stripped(s), IsAllowed) == s
  {
    LabelCharacters(s);
    StrippingNothing(s);
    KeepingAll(s, IsAllowed);
  }

  lemma LabelIsLeftAlone(s: string, digest: string)
    requires IsLabel(s)
    ensures Sanitized(s, digest) == s
  {
    StrippingLabel(s);
    TrimmingNothing(s);
  }

  /** The texts the function leaves alone are exactly the labels, whatever the digest would have been. */
  lemma LeftAloneIffLabel(s: string, digest: string)
    requires IsDigest(digest)
    ensures Sanitized(s, digest) == s <==> IsLabel(s)
  {
    var _, _ := SanitizedIsLabel(s, digest);
    if IsLabel(s) { LabelIsLeftAlone(s, digest); }
  }

  lemma {:induction false} StrippingBehindScheme(host: string)
    requires ':' !in host && '/' !in host
    ensures Stripped("https://" + host) == Stripped("http://" + host) == host == Stripped(host)
  {
    SchemeIsStripped(host);
    NotPrefixed(host, "http://", 4);
    KeepingAll(host, NotSlash);
    StrippingNothing(host);
  }

  /** A label behind a scheme is that label. */
  lemma {:induction false} SchemeIsDropped(host: string, digest: string)
    requires IsLabel(host)
    ensures Sanitized("https://" + host, digest) == Sanitized("http://" + host, digest) == host
  {
    LabelCharacters(host);
    StrippingBehindScheme(host);
    LabelIsLeftAlone(host, digest);
  }

  /** Sanitising again changes nothing, and never needs the second digest. */
  lemma SanitizeIsIdempotent(value: string, digest: string, other: string)
    requires IsDigest(digest) && IsDigest(other)
    ensures Sanitized(Sanitized(value, digest), other) == Sanitized(value, digest)
  {
    var _, _ := SanitizedIsLabel(value, digest);
    LabelIsLeftAlone(Sanitized(value, digest), other);
  }

  // ------------------------------------------------------------------ the code

  method RemoveURLSchemeAndSlashes(value: string) returns (r: string)
    ensures r == Stripped(value)
    ensures '/' !in r
  {
    r := TrimPrefix(value, "https://");
    r := TrimPrefix(r, "http://");
    KeptSatisfy(r, NotSlash);
    r := Kept(r, NotSlash);
  }

  /** `digest` is what hashing the stripped value gives. */
  method SanitizeLabelValue(value: string, digest: string) returns (sanitized: string)
    requires IsDigest(digest)
    ensures sanitized == Sanitized(value, digest)
    ensures IsLabel(sanitized) && |sanitized| <= 63
  {
    var v := RemoveURLSchemeAndSlashes(value);
    var result := "";
    for k := 0 to |v|
      invariant result == Kept(v[..k], IsAllowed)
    {
      assert v[..k + 1][..k] == v[..k];
      if IsAllowed(v[k]) { result := result + [v[k]]; }
    }
    assert v[..|v|] == v;
    sanitized := TrimLeft(result);
    sanitized := TrimRight(sanitized);
    if |sanitized| > MAX_LABEL {
      sanitized := sanitized[..MAX_LABEL];
      sanitized := TrimRight(sanitized);
    }
    if sanitized == "" { sanitized := digest; }
    var _, _ := SanitizedIsLabel(value, digest);
  }
}
