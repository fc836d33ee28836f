/** The router's aliases as the client reads and rewrites them. */
module Router {
  import opened Common

  /** The text before the first occurrence of the mark, all of it if there is none. */
  function Before(s: string, mark: char): string {
    if s == "" || s[0] == mark then "" else [s[0]] + Before(s[1..], mark)
  }

  function StripCIDR(ip: string): string { Before(ip, '/') }

  const INTERNAL_PREFIXES: seq<string> := ["__", "bogons", "virusprot", "sshlockout"]

  predicate IsInternal(key: string) {
    exists p :: p in INTERNAL_PREFIXES && p <= key
  }

  predicate MarksAddress(key: string, k: nat)
    requires k < |key|
  {
    key[k] == '.' || key[k] == ':' || (key[k] == '-' && key[0] != '-')
  }

  predicate IsReference(key: string) {
    forall k :: 0 <= k < |key| ==> !MarksAddress(key, k)
  }

  method IsInternalAlias(key: string) returns (r: bool)
    ensures r <==> IsInternal(key)
  {
    for k := 0 to |INTERNAL_PREFIXES|
      invariant forall j :: 0 <= j < k ==> !(INTERNAL_PREFIXES[j] <= key)
    {
      var p := INTERNAL_PREFIXES[k];
      if |key| >= |p| && key[..|p|] == p {
        assert p in INTERNAL_PREFIXES && p <= key;
        return true;
      }
    }
    r := false;
  }

  method IsAliasReference(key: string) returns (r: bool)
    ensures r <==> IsReference(key)
  {
    for k := 0 to |key|
      invariant forall j :: 0 <= j < k ==> !MarksAddress(key, j)
    {
      if key[k] == '.' || key[k] == ':' || (key[k] == '-' && key[0] != '-') {
        assert MarksAddress(key, k);
        return false;
      }
    }
    r := true;
  }

  datatype Item = Item(value: string, selected: bool)

  type Content = map<string, Item>

  predicate Shown(c: Content, key: string) {
    key in c && c[key].selected && !IsInternal(key) && !IsReference(key)
  }

  /** The addresses an alias is seen to hold. */
  function Selected(c: Content): set<string> {
    set key | key in c && Shown(c, key) :: StripCIDR(c[key].value)
  }

  method GetSelectedIPs(c: Content) returns (ips: seq<string>)
    ensures ToSet(ips) == Selected(c)
  {
    ips := [];
    var rest := c.Keys;
    while rest != {}
      invariant rest <= c.Keys
      invariant forall x :: x in ips <==>
                  exists key :: key in c && key !in rest && Shown(c, key) && x == StripCIDR(c[key].value)
      decreases rest
    {
      var key :| key in rest;
      var internal := IsInternalAlias(key);
      var reference := IsAliasReference(key);
      ghost var before, beforeRest := ips, rest;
      if c[key].selected && !internal && !reference {
        ips := ips + [StripCIDR(c[key].value)];
      }
      rest := rest - {key};
      forall x ensures x in ips <==> exists q :: q in c && q !in rest && Shown(c, q) && x == StripCIDR(c[q].value) {
        assert x in ips <==> x in before || (Shown(c, key) && x == StripCIDR(c[key].value));
        if exists q :: q in c && q !in rest && Shown(c, q) && x == StripCIDR(c[q].value) {
          var q :| q in c && q !in rest && Shown(c, q) && x == StripCIDR(c[q].value);
          assert q == key || q !in beforeRest;
        }
      }
    }
    forall x ensures x in ToSet(ips) <==> x in Selected(c) {}
  }

  // ------------------------------------------------------------------ the content field

  function Join(lines: seq<string>): string {
    if lines == [] then ""
    else if |lines| == 1 then lines[0]
    else Join(lines[..|lines| - 1]) + "\n" + lines[|lines| - 1]
  }

  /** The lines the router reads from a content field; empty ones do not count. */
  function Lines(content: string): seq<string>
    decreases |content|
  {
    if content == "" then []
    else
      var first := Before(content, '\n');
      var rest := if |first| < |content| then Lines(content[|first| + 1..]) else [];
      BeforeIsPrefix(content, '\n');
      if first == "" then rest else [first] + rest
  }

  lemma {:induction false} BeforeIsPrefix(s: string, mark: char)
    ensures var b := Before(s, mark);
            && b <= s && mark !in b
            && (|b| < |s| ==> s[|b|] == mark)
            && (mark !in s ==> b == s)
  {
    if s != "" && s[0] != mark {
      BeforeIsPrefix(s[1..], mark);
      assert s == [s[0]] + s[1..];
    }
  }

  lemma {:induction false} BeforeOfJoin(a: string, b: string, mark: char)
    requires mark !in a
    ensures Before(a + [mark] + b, mark) == a
  {
    var s := a + [mark] + b;
    if a != "" {
      assert s[1..] == a[1..] + [mark] + b;
      BeforeOfJoin(a[1..], b, mark);
      assert a == [a[0]] + a[1..];
    }
  }

  ghost predicate IsLine(s: string) { s != "" && '\n' !in s }

  /** The first line and the lines after it. */
  lemma LinesStep(s: string, first: string, rest: seq<string>)
    requires s != "" && first == Before(s, '\n')
    requires rest == if |first| < |s| then Lines(s[|first| + 1..]) else []
    ensures Lines(s) == (if first == "" then [] else [first]) + rest
  {
    BeforeIsPrefix(s, '\n');
    assert [] + rest == rest;
  }

  lemma {:induction false} LinesAppend(content: string, last: string)
    requires IsLine(last)
    ensures Lines(content + "\n" + last) == Lines(content) + [last]
    decreases |content|
  {
    var all := content + "\n" + last;
    BeforeIsPrefix(content, '\n');
    var first := Before(content, '\n');
    LineOfOne(last);
    if |first| < |content| {
      var rest := content[|first| + 1..];
      assert all == first + ['\n'] + (rest + "\n" + last);
      BeforeOfJoin(first, rest + "\n" + last, '\n');
      assert all[|first| + 1..] == rest + "\n" + last;
      LinesAppend(rest, last);
      LinesStep(all, first, Lines(rest) + [last]);
      LinesStep(content, first, Lines(rest));
    } else {
      assert first == content;
      assert all == content + ['\n'] + last;
      BeforeOfJoin(content, last, '\n');
      assert all[|first| + 1..] == last;
      LinesStep(all, first, [last]);
    }
  }

  lemma LineOfOne(last: string)
    requires IsLine(last)
    ensures Lines(last) == [last]
  {
    BeforeIsPrefix(last, '\n');
  }

  lemma JoinOneMore(front: seq<string>, last: string)
    requires front != []
    ensures Join(front + [last]) == Join(front) + "\n" + last
  {
    assert (front + [last])[..|front + [last]| - 1] == front;
  }

  /** The router reads back exactly the lines the client joined. */
  lemma {:induction false} LinesOfJoin(lines: seq<string>)
    requires forall l :: l in lines ==> IsLine(l)
    ensures Lines(Join(lines)) == lines
  {
    if |lines| == 1 {
      LineOfOne(lines[0]);
    } else if |lines| > 1 {
      var front, last := lines[..|lines| - 1], lines[|lines| - 1];
      assert lines == front + [last];
      LinesOfJoin(front);
      JoinOneMore(front, last);
      LinesAppend(Join(front), last);
    }
  }

  /** What an accepted content field leaves in the alias: every line, selected, under its own text. */
  function Accept(content: string): Content {
    map l | l in Lines(content) :: Item(l, true)
  }

  /** The text of a host address: hexadecimal digits, dots and colons, with at least one dot or colon. */
  predicate IsHost(s: string) {
    && (forall k :: 0 <= k < |s| ==> '0' <= s[k] <= '9' || 'a' <= s[k] <= 'f' || s[k] == '.' || s[k] == ':')
    && exists k :: 0 <= k < |s| && (s[k] == '.' || s[k] == ':')
  }

  lemma HostIsShown(s: string)
    requires IsHost(s)
    ensures IsLine(s) && !IsInternal(s) && !IsReference(s) && StripCIDR(s) == s
  {
    var k :| 0 <= k < |s| && (s[k] == '.' || s[k] == ':');
    assert MarksAddress(s, k);
    BeforeIsPrefix(s, '/');
    forall p | p in INTERNAL_PREFIXES ensures !(p <= s) {
      assert |s| >= 2 ==> s[0] != p[0] || s[1] != p[1];
    }
  }

  /** Writing a list of host addresses leaves the alias seen to hold exactly them. */
  lemma WriteThenRead(hosts: seq<string>)
    requires forall h :: h in hosts ==> IsHost(h)
    ensures Selected(Accept(Join(hosts))) == ToSet(hosts)
  {
    forall h | h in hosts ensures IsLine(h) && !IsInternal(h) && !IsReference(h) && StripCIDR(h) == h {
      HostIsShown(h);
    }
    LinesOfJoin(hosts);
    var c := Accept(Join(hosts));
    forall h ensures h in Selected(c) <==> h in ToSet(hosts) {
      if h in hosts { assert Shown(c, h); }
    }
  }

  function Stripped(ips: seq<string>): seq<string> {
    seq(|ips|, k requires 0 <= k < |ips| => StripCIDR(ips[k]))
  }

  /** The text of a content field: each address without its prefix length, one to a line. */
  method BuildContent(ips: seq<string>) returns (content: string)
    ensures content == Join(Stripped(ips))
  {
    content := "";
    for k := 0 to |ips|
      invariant content == Join(Stripped(ips)[..k])
    {
      if k > 0 { content := content + "\n"; }
      content := content + StripCIDR(ips[k]);
      assert Stripped(ips)[..k + 1][..k] == Stripped(ips)[..k];
    }
    assert Stripped(ips)[..|ips|] == Stripped(ips);
  }

  /** A set's elements, in some order. */
  method Listed(s: set<string>) returns (xs: seq<string>)
    ensures ToSet(xs) == s
  {
    xs := [];
    var rest := s;
    while rest != {}
      invariant rest <= s && ToSet(xs) == s - rest
      decreases rest
    {
      var x :| x in rest;
      ghost var before := xs;
      xs, rest := xs + [x], rest - {x};
      assert ToSet(xs) == ToSet(before) + {x};
    }
  }

  /** The current addresses without the ones to remove, and with the ones to add. */
  method MergeIPs(current: seq<string>, ipsToAdd: seq<string>, ipsToRemove: seq<string>) returns (newIPs: seq<string>)
    ensures ToSet(newIPs) == (ToSet(current) - ToSet(ipsToRemove)) + ToSet(ipsToAdd)
  {
    var ipMap: set<string> := {};
    for k := 0 to |current|
      invariant ipMap == ToSet(current[..k])
    {
      ipMap := ipMap + {current[k]};
    }
    assert current[..|current|] == current;
    for k := 0 to |ipsToRemove|
      invariant ipMap == ToSet(current) - ToSet(ipsToRemove[..k])
    {
      ipMap := ipMap - {ipsToRemove[k]};
    }
    assert ipsToRemove[..|ipsToRemove|] == ipsToRemove;
    for k := 0 to |ipsToAdd|
      invariant ipMap == (ToSet(current) - ToSet(ipsToRemove)) + ToSet(ipsToAdd[..k])
    {
      ipMap := ipMap + {ipsToAdd[k]};
    }
    assert ipsToAdd[..|ipsToAdd|] == ipsToAdd;
    newIPs := Listed(ipMap);
  }

  // ------------------------------------------------------------------ which items count

  /** An address without its prefix length. */
  lemma AddressesAreHosts()
    ensures IsHost("10.0.0.9") && IsHost("fe80::bad:cafe") && !IsHost("lan") && !IsHost("10.0.0.0/8")
  {
    assert "10.0.0.9"[2] == '.' && "fe80::bad:cafe"[4] == ':' && "lan"[0] == 'l' && "10.0.0.0/8"[8] == '/';
  }

  lemma StripIs(host: string, length: string)
    requires '/' !in host
    ensures StripCIDR(host + "/" + length) == host && StripCIDR(host) == host
  {
    BeforeOfJoin(host, length, '/');
    BeforeIsPrefix(host, '/');
  }

  lemma InternalIff(key: string)
    ensures IsInternal(key) <==> "__" <= key || "bogons" <= key || "virusprot" <= key || "sshlockout" <= key
  {
    var ps := INTERNAL_PREFIXES;
    assert ps[0] in ps && ps[1] in ps && ps[2] in ps && ps[3] in ps;
    forall p | p in ps ensures p == ps[0] || p == ps[1] || p == ps[2] || p == ps[3] {}
    assert IsInternal(key) <==> ps[0] <= key || ps[1] <= key || ps[2] <= key || ps[3] <= key;
  }

  /** A reference has no dot, no colon, and a dash only if it starts with one. */
  lemma ReferenceIff(key: string)
    ensures IsReference(key) <==> '.' !in key && ':' !in key && ('-' in key ==> key[0] == '-')
  {
    if '.' !in key && ':' !in key && ('-' in key ==> key[0] == '-') {
      forall k | 0 <= k < |key| ensures !MarksAddress(key, k) { assert key[k] in key; }
    }
    if '.' in key { var k :| 0 <= k < |key| && key[k] == '.'; assert MarksAddress(key, k); }
    if ':' in key { var k :| 0 <= k < |key| && key[k] == ':'; assert MarksAddress(key, k); }
    if '-' in key && key[0] != '-' { var k :| 0 <= k < |key| && key[k] == '-'; assert MarksAddress(key, k); }
  }

  /** An item counts, with its address stripped, exactly if it is selected and its key is neither internal
      nor a reference; it changes nothing else about what the alias is seen to hold. */
  lemma OneItem(c: Content, key: string, item: Item)
    ensures Selected(c[key := item]) ==
              Selected(c - {key}) +
              if item.selected && !IsInternal(key) && !IsReference(key) then {StripCIDR(item.value)} else {}
  {
    var d, e := c[key := item], c - {key};
    forall k ensures k in d && Shown(d, k) <==> (k != key && k in e && Shown(e, k)) || (k == key && Shown(d, key)) {}
    forall x ensures x in Selected(d) <==>
        x in Selected(e) || (Shown(d, key) && x == StripCIDR(item.value)) {
      if x in Selected(d) {
        var k :| k in d && Shown(d, k) && x == StripCIDR(d[k].value);
        if k != key { assert k in e && Shown(e, k) && e[k] == d[k]; }
      }
      if x in Selected(e) {
        var k :| k in e && Shown(e, k) && x == StripCIDR(e[k].value);
        assert k in d && Shown(d, k) && d[k] == e[k];
      }
      if Shown(d, key) { assert key in d && d[key] == item; }
    }
  }

  lemma UnselectedDoesNotCount(c: Content, key: string)
    requires key in c && !c[key].selected
    ensures Selected(c) == Selected(c - {key})
  {
    OneItem(c, key, c[key]);
    assert c[key := c[key]] == c;
  }

  /** A selected host counts, with or without a prefix length. */
  lemma SelectedHostCounts(c: Content, host: string, length: string)
    requires IsHost(host)
    ensures host in Selected(c[host := Item(host, true)])
    ensures host in Selected(c[host := Item(host + "/" + length, true)])
  {
    HostIsShown(host);
    BeforeIsPrefix(host, '/');
    assert '/' !in host;
    StripIs(host, length);
    OneItem(c, host, Item(host, true));
    OneItem(c, host, Item(host + "/" + length, true));
  }

  // ------------------------------------------------------------------ the content field, character by character

  function Lengths(lines: seq<string>): nat {
    if lines == [] then 0 else Lengths(lines[..|lines| - 1]) + |lines[|lines| - 1]|
  }

  /** There is one line end between any two lines and nothing else added. */
  lemma {:induction false} JoinLength(lines: seq<string>)
    requires lines != []
    ensures |Join(lines)| == Lengths(lines) + |lines| - 1
  {
    if |lines| == 1 {
      assert lines[..0] == [] && Lengths([]) == 0;
    } else {
      var front, last := lines[..|lines| - 1], lines[|lines| - 1];
      assert lines == front + [last];
      JoinLength(front);
      JoinOneMore(front, last);
    }
  }
}
