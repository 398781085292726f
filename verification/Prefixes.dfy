/**
 The IPv4 networks of a discovery job: reading and writing them, bringing a list of them into one
 canonical form, checking a request against the project's networks, and visiting every address.
 Addresses are numbers below 2^32; a prefix masks by a power of two (section 3.1 of RFC 4632).
 Texts that are not IPv4, and so are refused or skipped wherever they appear, parse to nothing here.
 */
module Prefixes {
  import opened Arithmetic
  import opened ListFacts
  import opened Outcomes
  import opened Text

  const ADDRESSES: int := 0x1_0000_0000

  datatype Prefix = Prefix(addr: nat, bits: nat)

  predicate Valid(p: Prefix) {
    p.addr < ADDRESSES && p.bits <= 32
  }

  function Pow2(n: nat): (r: nat)
    ensures r > 0
  {
    if n == 0 then 1 else 2 * Pow2(n - 1)
  }

  lemma {:induction false} Pow2Adds(m: nat, n: nat)
    ensures Pow2(m + n) == Pow2(m) * Pow2(n)
  {
    if m > 0 {
      Pow2Adds(m - 1, n);
      assert Pow2(m + n) == 2 * Pow2(m + n - 1);
    }
  }

  lemma Pow2Of32()
    ensures Pow2(32) == ADDRESSES
  {
    assert Pow2(8) == 256;
    Pow2Adds(8, 8);
    Pow2Adds(16, 16);
  }

  /***** Meaning *****/

  function Size(p: Prefix): nat
    requires Valid(p)
  {
    Pow2(32 - p.bits)
  }

  /** An address is in a network if both agree on the network's leading bits. */
  predicate Contains(p: Prefix, a: nat)
    requires Valid(p)
  {
    a < ADDRESSES && a / Size(p) == p.addr / Size(p)
  }

  /** The greatest multiple of `size` up to `a`. */
  function Floor(a: nat, size: nat): (r: nat)
    requires size > 0
    ensures r <= a < r + size && r / size == a / size
  {
    DivBetween(a / size, size, a);
    DivBetween(a / size, size, a / size * size);
    a / size * size
  }

  lemma FloorIsRange(addr: nat, size: nat, blocks: nat, a: nat)
    requires size > 0 && addr < blocks * size
    ensures Floor(addr, size) + size <= blocks * size
    ensures a / size == addr / size <==> Floor(addr, size) <= a < Floor(addr, size) + size
    ensures Floor(Floor(addr, size), size) == Floor(addr, size)
  {
    var q := addr / size;
    DivBetween(q, size, a);
    DivBetween(q, size, addr);
    if q >= blocks {
      MulMono(blocks, q, size);
    }
    MulMono(q + 1, blocks, size);
  }

  function Masked(p: Prefix): (m: Prefix)
    requires Valid(p)
    ensures Valid(m)
  {
    Prefix(Floor(p.addr, Size(p)), p.bits)
  }

  /** A masked network is one run of consecutive addresses, all below 2^32. */
  lemma MaskedIsRange(p: Prefix, a: nat)
    requires Valid(p)
    ensures Masked(p).addr + Size(p) <= ADDRESSES
    ensures Contains(p, a) <==> Masked(p).addr <= a < Masked(p).addr + Size(p)
    ensures Contains(Masked(p), a) <==> Contains(p, a)
    ensures Masked(Masked(p)) == Masked(p)
  {
    hide Pow2, Floor;
    Pow2Of32();
    Pow2Adds(p.bits, 32 - p.bits);
    FloorIsRange(p.addr, Size(p), Pow2(p.bits), a);
  }

  /** Two addresses that agree on more leading bits agree on fewer. */
  lemma CoarserAgrees(fine: nat, coarse: nat, a: nat, b: nat)
    requires fine <= coarse && a / Pow2(fine) == b / Pow2(fine)
    ensures a / Pow2(coarse) == b / Pow2(coarse)
  {
    var f, k := Pow2(fine), Pow2(coarse - fine);
    Pow2Adds(coarse - fine, fine);
    DivDiv(a, f, k);
    DivDiv(b, f, k);
  }

  lemma DivDiv(a: nat, f: nat, k: nat)
    requires f > 0 && k > 0
    ensures k * f > 0 && a / (k * f) == a / f / k
  {
    var d := a / f;
    var q := d / k;
    DivBetween(d, f, a);
    DivBetween(q, k, d);
    MulMono(1, k, f);
    Blocks(a, f, k, d, q);
    DivBetween(q, k * f, a);
  }

  lemma Blocks(a: nat, f: nat, k: nat, d: nat, q: nat)
    requires d * f <= a < d * f + f && q * k <= d < q * k + k
    ensures q * (k * f) <= a < q * (k * f) + k * f
  {
    MulMono(q * k, d, f);
    MulMono(d + 1, q * k + k, f);
    MulAdd(d, 1, f);
    MulAdd(q * k, k, f);
    MulAssoc(q, k, f);
  }

  /***** Text *****/

  function AddrText(a: nat): string
    requires a < ADDRESSES
  {
    Join([Decimal(a / 0x100_0000), Decimal(a / 0x1_0000 % 256), Decimal(a / 256 % 256), Decimal(a % 256)], '.')
  }

  function PrefixText(p: Prefix): string
    requires Valid(p)
  {
    AddrText(p.addr) + "/" + Decimal(p.bits)
  }

  /** One field of an address: a number up to 255 without a needless zero in front. */
  predicate IsOctet(s: string) {
    Plain(s) && Value(s) <= 255
  }

  function ParseAddr(s: string): (r: Option<nat>)
    ensures r.Some? ==> r.value < ADDRESSES
  {
    var f := Split(s, '.');
    if |f| == 4 && IsOctet(f[0]) && IsOctet(f[1]) && IsOctet(f[2]) && IsOctet(f[3])
    then Some(((Value(f[0]) * 256 + Value(f[1])) * 256 + Value(f[2])) * 256 + Value(f[3]))
    else None
  }

  /** What follows the last slash is the number of bits; it has no sign and no needless zero. */
  function ParsePrefix(s: string): (r: Option<Prefix>)
    ensures r.Some? ==> Valid(r.value)
  {
    var parts := Split(s, '/');
    if |parts| < 2 then None
    else
      var n := |parts| - 1;
      var addr := ParseAddr(Join(parts[..n], '/'));
      if addr.None? || !Plain(parts[n]) || Value(parts[n]) > 32 then None
      else Some(Prefix(addr.value, Value(parts[n])))
  }

  function ParseDiscoveryPrefix(value: string): (r: Option<Prefix>)
    ensures r.Some? ==> Valid(r.value)
  {
    var text := TrimSpace(value);
    if ParseAddr(text).Some? then Some(Prefix(ParseAddr(text).value, 32))
    else if ParsePrefix(text).Some? then Some(Masked(ParsePrefix(text).value))
    else None
  }

  lemma DigitsHaveNo(s: string, c: char)
    requires AllDigits(s) && !IsDigit(c)
    ensures c !in s
  {
  }

  lemma FourOctets(a: nat)
    requires a < ADDRESSES
    ensures a / 0x100_0000 <= 255
    ensures ((a / 0x100_0000 * 256 + a / 0x1_0000 % 256) * 256 + a / 256 % 256) * 256 + a % 256 == a
  {
    assert a / 256 / 256 == a / 0x1_0000 && a / 0x1_0000 / 256 == a / 0x100_0000;
  }

  lemma ParseOfFour(b: seq<nat>, f: seq<string>)
    requires |b| == |f| == 4 && forall i | 0 <= i < 4 :: b[i] <= 255 && f[i] == Decimal(b[i])
    ensures ParseAddr(Join(f, '.')) == Some(((b[0] * 256 + b[1]) * 256 + b[2]) * 256 + b[3])
    ensures Trimmed(Join(f, '.')) && '/' !in Join(f, '.') && Join(f, '.') != ""
  {
    hide Value, Join, Split, Decimal, Trimmed;
    forall i | 0 <= i < 4 ensures '.' !in f[i] && '/' !in f[i] && Value(f[i]) == b[i] {
      DigitsHaveNo(f[i], '.');
      DigitsHaveNo(f[i], '/');
      ValueOfDecimal(b[i]);
    }
    SplitOfJoin(f, '.');
    JoinOfFour(f);
  }

  lemma AddrRoundTrip(a: nat)
    requires a < ADDRESSES
    ensures ParseAddr(AddrText(a)) == Some(a)
    ensures Trimmed(AddrText(a)) && '/' !in AddrText(a) && AddrText(a) != ""
  {
    hide ParseAddr, Join, Decimal, Trimmed;
    var b := [a / 0x100_0000, a / 0x1_0000 % 256, a / 256 % 256, a % 256];
    FourOctets(a);
    ParseOfFour(b, [Decimal(b[0]), Decimal(b[1]), Decimal(b[2]), Decimal(b[3])]);
  }

  lemma JoinOfFour(f: seq<string>)
    requires |f| == 4 && forall i | 0 <= i < 4 :: f[i] != "" && AllDigits(f[i]) && '/' !in f[i]
    ensures Trimmed(Join(f, '.')) && '/' !in Join(f, '.') && Join(f, '.') != ""
  {
    var s := Join(f, '.');
    assert Join(f[3..], '.') == f[3];
    assert f[2..][1..] == f[3..] && f[1..][1..] == f[2..];
    assert Join(f[2..], '.') == f[2] + ['.'] + f[3];
    assert Join(f[1..], '.') == f[1] + ['.'] + (f[2] + ['.'] + f[3]);
    assert s == f[0] + ['.'] + (f[1] + ['.'] + (f[2] + ['.'] + f[3]));
    assert s[0] == f[0][0] && s[|s| - 1] == f[3][|f[3]| - 1];
  }

  lemma AddrShape(s: string)
    requires ParseAddr(s).Some?
    ensures Trimmed(s) && '/' !in s && s != ""
  {
    hide Split, Value;
    var f := Split(s, '.');
    JoinOfSplit(s, '.');
    forall i | 0 <= i < 4 ensures '/' !in f[i] {
      DigitsHaveNo(f[i], '/');
    }
    JoinOfFour(f);
  }

  /** Parsing what was printed gives the same network back; the text has no white space around it. */
  lemma PrefixRoundTrip(p: Prefix)
    requires Valid(p)
    ensures ParsePrefix(PrefixText(p)) == Some(p)
    ensures ParseAddr(PrefixText(p)) == None
    ensures Trimmed(PrefixText(p)) && PrefixText(p) != ""
  {
    hide ParseAddr, AddrText, Split, Decimal, Value, IsSpace;
    var a, b := AddrText(p.addr), Decimal(p.bits);
    AddrRoundTrip(p.addr);
    ValueOfDecimal(p.bits);
    DigitsHaveNo(b, '/');
    NoSpaceInDigits(b);
    SplitOfNone(b, '/');
    SplitAtSeparator(a, b, '/');
    var s := PrefixText(p);
    assert s == a + ['/'] + b;
    assert [a, b][..1] == [a];
    assert s[0] == a[0] && s[|s| - 1] == b[|b| - 1] && s[|a|] == '/';
    if ParseAddr(s).Some? {
      AddrShape(s);
    }
  }

  /***** The canonical list *****/

  function CanonicalText(text: string): string {
    if ParseAddr(text).Some? then PrefixText(Prefix(ParseAddr(text).value, 32))
    else if ParsePrefix(text).Some? then PrefixText(Masked(ParsePrefix(text).value))
    else text
  }

  function Canonical(values: seq<string>): seq<string> {
    if values == [] then []
    else
      var n := |values| - 1;
      var before, text := Canonical(values[..n]), TrimSpace(values[n]);
      if text == "" || CanonicalText(text) in before then before else before + [CanonicalText(text)]
  }

  method CanonicalCIDRs(values: seq<string>) returns (result: seq<string>)
    ensures result == Canonical(values)
  {
    result := [];
    var seen: set<string> := {};
    for i := 0 to |values|
      invariant result == Canonical(values[..i])
      invariant forall s :: s in seen <==> s in result
    {
      assert values[..i + 1][..i] == values[..i];
      var value := TrimSpace(values[i]);
      if value != "" {
        var canonical := CanonicalText(value);
        if canonical !in seen {
          seen := seen + {canonical};
          result := result + [canonical];
        }
      }
    }
    assert values[..|values|] == values;
  }

  /** Is the address one of those that the list stands for? */
  predicate CoveredBy(values: seq<string>, a: nat) {
    exists i :: 0 <= i < |values| && ParseDiscoveryPrefix(values[i]).Some? &&
      Contains(ParseDiscoveryPrefix(values[i]).value, a)
  }

  /** Neither trimming nor rewriting changes this entry. */
  predicate InForm(text: string) {
    text != "" && TrimSpace(text) == text && CanonicalText(text) == text
  }

  lemma CanonicalTextIsInForm(value: string)
    requires TrimSpace(value) != ""
    ensures InForm(CanonicalText(TrimSpace(value)))
    ensures ParseDiscoveryPrefix(CanonicalText(TrimSpace(value))) == ParseDiscoveryPrefix(value)
  {
    var text := TrimSpace(value);
    TrimSpaceTrims(value);
    var p := if ParseAddr(text).Some? then Prefix(ParseAddr(text).value, 32)
             else if ParsePrefix(text).Some? then Masked(ParsePrefix(text).value) else Prefix(0, 0);
    PrefixRoundTrip(p);
    TrimmedIsKept(PrefixText(p));
    if ParseAddr(text).Some? {
    } else if ParsePrefix(text).Some? {
      MaskedIsRange(ParsePrefix(text).value, 0);
    }
  }

  /** No entry occurs twice and none would be rewritten again. */
  lemma {:induction false} CanonicalForm(values: seq<string>)
    ensures NoRepeats(Canonical(values))
    ensures forall i | 0 <= i < |Canonical(values)| :: InForm(Canonical(values)[i])
  {
    if values != [] {
      var n := |values| - 1;
      CanonicalForm(values[..n]);
      if TrimSpace(values[n]) != "" {
        CanonicalTextIsInForm(values[n]);
      }
    }
  }

  lemma {:induction false} FormIsKept(values: seq<string>)
    requires NoRepeats(values) && forall i | 0 <= i < |values| :: InForm(values[i])
    ensures Canonical(values) == values
  {
    hide TrimSpace, CanonicalText;
    if values != [] {
      var n := |values| - 1;
      FormIsKept(values[..n]);
      assert values == values[..n] + [values[n]];
      assert InForm(values[n]);
    }
  }

  lemma CanonicalTwice(values: seq<string>)
    ensures Canonical(Canonical(values)) == Canonical(values)
  {
    CanonicalForm(values);
    FormIsKept(Canonical(values));
  }

  lemma CoveredByAppend(values: seq<string>, last: string, a: nat)
    ensures CoveredBy(values + [last], a) <==>
            CoveredBy(values, a) || (ParseDiscoveryPrefix(last).Some? && Contains(ParseDiscoveryPrefix(last).value, a))
  {
    var all := values + [last];
    if CoveredBy(values, a) {
      var i :| 0 <= i < |values| && ParseDiscoveryPrefix(values[i]).Some? &&
        Contains(ParseDiscoveryPrefix(values[i]).value, a);
      assert all[i] == values[i];
    }
    assert all[|values|] == last;
  }

  lemma EmptyStandsForNothing()
    ensures ParseAddr("") == None && ParsePrefix("") == None
  {
    assert Split("", '.') == [""] && Split("", '/') == [""];
  }

  /** Bringing the list into canonical form changes no address it stands for. */
  lemma {:induction false} CanonicalKeepsCoverage(values: seq<string>, a: nat)
    ensures CoveredBy(Canonical(values), a) <==> CoveredBy(values, a)
  {
    hide ParseAddr, ParsePrefix, CanonicalText, Contains;
    if values != [] {
      var n := |values| - 1;
      var before, text := Canonical(values[..n]), TrimSpace(values[n]);
      CanonicalKeepsCoverage(values[..n], a);
      assert values == values[..n] + [values[n]];
      CoveredByAppend(values[..n], values[n], a);
      if text == "" {
        EmptyStandsForNothing();
      } else {
        CanonicalTextIsInForm(values[n]);
        CoveredByAppend(before, CanonicalText(text), a);
      }
    }
  }

  /***** Visiting every address *****/

  function SizeOf(p: Option<Prefix>): nat
    requires p.Some? ==> Valid(p.value)
  {
    if p.Some? then Size(p.value) else 0
  }

  function TotalSize(cidrs: seq<string>): nat {
    if cidrs == [] then 0
    else TotalSize(cidrs[..|cidrs| - 1]) + SizeOf(ParseDiscoveryPrefix(cidrs[|cidrs| - 1]))
  }

  predicate AllParse(cidrs: seq<string>) {
    forall i | 0 <= i < |cidrs| :: ParseDiscoveryPrefix(cidrs[i]).Some?
  }

  method CountHosts(cidrs: seq<string>) returns (r: Result<nat, string>)
    ensures r == if AllParse(cidrs) then Ok(TotalSize(cidrs)) else Err("invalid IPv4 discovery network")
  {
    hide Pow2, ParseDiscoveryPrefix;
    var total := 0;
    for i := 0 to |cidrs|
      invariant AllParse(cidrs[..i]) && total == TotalSize(cidrs[..i])
    {
      assert cidrs[..i + 1][..i] == cidrs[..i];
      var prefix := ParseDiscoveryPrefix(cidrs[i]);
      if prefix.None? {
        return Err("invalid IPv4 discovery network");
      }
      var count := Pow2(32 - prefix.value.bits);
      total := total + count;
    }
    assert cidrs[..|cidrs|] == cidrs;
    return Ok(total);
  }

  /** The addresses of a network, in order. */
  function HostsOf(p: Prefix): (hosts: seq<nat>)
    requires Valid(p)
    ensures forall i | 0 <= i < |hosts| :: hosts[i] < ADDRESSES
  {
    MaskedIsRange(p, 0);
    seq(Size(p), i => Masked(p).addr + i)
  }

  function Min(a: nat, b: nat): nat {
    if a < b then a else b
  }

  function Texts(hosts: seq<nat>): (texts: seq<string>)
    requires forall i | 0 <= i < |hosts| :: hosts[i] < ADDRESSES
    ensures |texts| == |hosts|
  {
    seq(|hosts|, i requires 0 <= i < |hosts| => AddrText(hosts[i]))
  }

  /** `stop` is how often the visitor is called until it asks to stop, if the network is that large. */
  method ForEachHost(cidr: string, stop: nat) returns (ok: bool, visited: seq<string>)
    requires stop > 0
    ensures ok <==> ParseDiscoveryPrefix(cidr).Some?
    ensures visited == if ok then var hosts := HostsOf(ParseDiscoveryPrefix(cidr).value);
                                  Texts(hosts[..Min(stop, |hosts|)]) else []
  {
    hide Pow2, ParseDiscoveryPrefix, AddrText, Floor;
    visited := [];
    var prefix := ParseDiscoveryPrefix(cidr);
    if prefix.None? {
      return false, [];
    }
    var masked := Masked(prefix.value);
    ghost var hosts := HostsOf(prefix.value);
    MaskedIsRange(prefix.value, 0);
    var address := masked.addr;
    var counted := CountHosts([cidr]);
    assert [cidr][..0] == [];
    assert AllParse([cidr]) && TotalSize([cidr]) == Size(prefix.value);
    var remaining := counted.value;
    var index := 0;
    while index < remaining
      invariant 0 <= index <= remaining == |hosts| && index <= stop
      invariant address == masked.addr + index
      invariant visited == Texts(hosts[..index])
      invariant index == stop ==> index == remaining
    {
      visited := visited + [AddrText(address)];
      assert hosts[..index + 1] == hosts[..index] + [hosts[index]];
      if |visited| == stop {
        return true, visited;
      }
      address := address + 1;
      index := index + 1;
    }
    return true, visited;
  }

  /** Undisturbed, every address of the network is visited, once, in ascending order, and no other. */
  lemma HostsAreExact(cidr: string, a: nat)
    requires ParseDiscoveryPrefix(cidr).Some?
    ensures var p := ParseDiscoveryPrefix(cidr).value;
      a in HostsOf(p) <==> Contains(p, a)
    ensures var hosts := HostsOf(ParseDiscoveryPrefix(cidr).value);
      |hosts| == TotalSize([cidr]) && forall i, j | 0 <= i < j < |hosts| :: hosts[i] < hosts[j]
  {
    var p := ParseDiscoveryPrefix(cidr).value;
    MaskedIsRange(p, a);
    if Contains(p, a) {
      assert HostsOf(p)[a - Masked(p).addr] == a;
    }
    assert [cidr][..0] == [];
  }

  /** The top of the address space is reached: the whole space ends with 255.255.255.255. */
  lemma LastAddressIsVisited(cidr: string)
    requires ParseDiscoveryPrefix(cidr).Some? && Contains(ParseDiscoveryPrefix(cidr).value, ADDRESSES - 1)
    ensures var hosts := HostsOf(ParseDiscoveryPrefix(cidr).value); |hosts| > 0 && hosts[|hosts| - 1] == ADDRESSES - 1
  {
    HostsAreExact(cidr, ADDRESSES - 1);
    MaskedIsRange(ParseDiscoveryPrefix(cidr).value, ADDRESSES - 1);
  }

  /***** Scope *****/

  predicate Allows(allowed: string, requested: Prefix)
    requires Valid(requested)
  {
    var parent := ParsePrefix(allowed);
    parent.Some? && requested.bits >= parent.value.bits && Contains(parent.value, requested.addr)
  }

  predicate InScope(network: string, allowed: seq<string>) {
    ParsePrefix(network).Some? && exists i :: 0 <= i < |allowed| && Allows(allowed[i], ParsePrefix(network).value)
  }

  predicate IsFirstBad(networks: seq<string>, allowed: seq<string>, i: int) {
    0 <= i < |networks| && !InScope(networks[i], allowed) && forall j | 0 <= j < i :: InScope(networks[j], allowed)
  }

  /** The networks part of the request's check: what is wrong with the field, if anything is. */
  datatype NetworksError = Empty | NotIPv4 | OutOfScope

  method ValidateDiscoveryNetworks(networks: seq<string>, allowed: seq<string>) returns (r: Option<NetworksError>)
    ensures r.None? <==> networks != [] && forall i | 0 <= i < |networks| :: InScope(networks[i], allowed)
    ensures r == Some(Empty) <==> networks == []
    ensures r == Some(NotIPv4) <==> exists i :: IsFirstBad(networks, allowed, i) && ParsePrefix(networks[i]).None?
  {
    hide ParsePrefix, Contains;
    r := if |networks| == 0 then Some(Empty) else None;
    for i := 0 to |networks|
      invariant r.None? <==> networks != []
      invariant r.Some? ==> r == Some(Empty)
      invariant forall j | 0 <= j < i :: InScope(networks[j], allowed)
    {
      var requested := ParsePrefix(networks[i]);
      if requested.None? {
        r := Some(NotIPv4);
        break;
      }
      var found := false;
      for k := 0 to |allowed|
        invariant !found && forall j | 0 <= j < k :: !Allows(allowed[j], requested.value)
      {
        if Allows(allowed[k], requested.value) {
          found := true;
          break;
        }
      }
      if !found {
        r := Some(OutOfScope);
        break;
      }
    }
  }

  lemma PlainPrefixIsTrimmed(s: string)
    requires ParsePrefix(s).Some?
    ensures TrimSpace(s) == s && ParseAddr(s).None?
  {
    hide ParseAddr, Split, Value, IsSpace;
    var parts := Split(s, '/');
    var n := |parts| - 1;
    var front := Join(parts[..n], '/');
    JoinOfSplit(s, '/');
    AddrShape(front);
    NoSpaceInDigits(parts[n]);
    OneSlash(parts);
    assert s[|front|] == '/';
    if ParseAddr(s).Some? {
      AddrShape(s);
    }
    assert s[0] == front[0] && s[|s| - 1] == parts[n][|parts[n]| - 1];
    TrimmedIsKept(s);
  }

  lemma {:induction false} OneSlash(parts: seq<string>)
    requires |parts| >= 2
    ensures Join(parts, '/') == Join(parts[..|parts| - 1], '/') + ['/'] + parts[|parts| - 1]
  {
    var n := |parts| - 1;
    if n > 1 {
      OneSlash(parts[1..]);
      assert parts[1..][..n - 1] == parts[..n][1..];
    }
  }

  /** A request that passes the check only makes the job visit addresses of the project's networks. */
  lemma ScopeIsContained(networks: seq<string>, allowed: seq<string>, i: nat, a: nat)
    requires forall j | 0 <= j < |networks| :: InScope(networks[j], allowed)
    requires i < |networks| && ParseDiscoveryPrefix(networks[i]).Some?
    requires a in HostsOf(ParseDiscoveryPrefix(networks[i]).value)
    ensures exists k :: 0 <= k < |allowed| && ParsePrefix(allowed[k]).Some? &&
              Contains(ParsePrefix(allowed[k]).value, a)
  {
    hide Pow2, Floor, ParsePrefix;
    assert InScope(networks[i], allowed);
    var requested := ParsePrefix(networks[i]).value;
    PlainPrefixIsTrimmed(networks[i]);
    HostsAreExact(networks[i], a);
    MaskedIsRange(requested, a);
    assert Contains(requested, a);
    var k :| 0 <= k < |allowed| && Allows(allowed[k], requested);
    var parent := ParsePrefix(allowed[k]).value;
    CoarserAgrees(32 - requested.bits, 32 - parent.bits, a, requested.addr);
    assert Contains(parent, a);
  }
}
